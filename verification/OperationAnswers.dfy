/**
 What the logs of operations say (src-tauri/src/bridge/ops.rs): every message that
 was emitted, none twice, and the outcome of whoever finished first.
 */
module OperationAnswers {
  import opened Wrappers
  import opened Frames
  import opened Shuffles
  import Histories = OperationHistories
  import Races = OperationRaces
  import Creators = ConcurrentCreators

  function IsMessage(): Frame -> bool {
    (f: Frame) => f.Message?
  }

  /** The messages among the frames, in order. */
  function Messages(frames: seq<Frame>): seq<Frame> {
    Kept(frames, IsMessage())
  }

  // ------------------------------------------------------------------- atomic steps

  /** Finishing a running operation gives it exactly that outcome, as its last frame
      and on the mirror, and touches no other. */
  lemma AFinishSays(st: Histories.State, id: string, outcome: Outcome)
    requires id in st.ops && st.ops[id].outcome.None?
    ensures var next := Histories.Next(st, Histories.Finish(id, outcome));
      && next.ops.Keys == st.ops.Keys
      && next.ops[id] == Histories.Op(st.ops[id].log + [Terminal(id, outcome)], Some(outcome))
      && next.global == st.global + [Terminal(id, outcome)]
      && forall other :: other in st.ops && other != id ==> next.ops[other] == st.ops[other]
  {
  }

  /** Failing all gives every running operation of the list the error, and touches
      no other. */
  lemma {:induction false} AFailAllSays(st: Histories.State, error: string, order: seq<string>, id: string)
    requires id in st.ops
    ensures var next := Histories.Next(st, Histories.FailAll(error, order));
      var failed := Outcome(Failed, None, Some(error));
      && id in next.ops
      && next.ops[id] ==
         if id in order && st.ops[id].outcome.None? then
           Histories.Op(st.ops[id].log + [Terminal(id, failed)], Some(failed))
         else st.ops[id]
    decreases order
  {
    if order != [] {
      var failed := Outcome(Failed, None, Some(error));
      AFailAllSays(Histories.FinishOne(st, order[0], failed), error, order[1..], id);
    }
  }

  /** The messages a run emits for an operation, in order. */
  function EmittedFor(st: Histories.State, steps: seq<Histories.Step>, id: string): seq<Frame>
    decreases steps
  {
    if steps == [] then []
    else
      (if steps[0].Emit? && steps[0].id == id && id in st.ops then [Message(id, steps[0].text)] else [])
      + EmittedFor(Histories.Next(st, steps[0]), steps[1..], id)
  }

  lemma MessageGrows(frames: seq<Frame>, f: Frame, id: string)
    ensures Messages(Histories.Of(frames + [f], id))
         == Messages(Histories.Of(frames, id)) + (if f.Message? && f.op == id then [f] else [])
  {
    var mine := Histories.Of(frames, id);
    Histories.OfAppend(frames, f, id);
    SplitGrows(mine, IsMessage(), f);
    assert mine + [] == mine && Messages(mine) + [] == Messages(mine);
  }

  lemma {:induction false} FailEachSaysNothing(st: Histories.State, error: string, order: seq<string>, id: string)
    ensures Messages(Histories.Of(Histories.FailEach(st, error, order).global, id))
         == Messages(Histories.Of(st.global, id))
    decreases order
  {
    if order != [] {
      var failed := Outcome(Failed, None, Some(error));
      MessageGrows(st.global, Terminal(order[0], failed), id);
      FailEachSaysNothing(Histories.FinishOne(st, order[0], failed), error, order[1..], id);
    }
  }

  lemma StepSays(st: Histories.State, step: Histories.Step, id: string)
    ensures Messages(Histories.Of(Histories.Next(st, step).global, id))
         == Messages(Histories.Of(st.global, id))
            + (if step.Emit? && step.id == id && id in st.ops then [Message(id, step.text)] else [])
  {
    match step
    case Create(_) =>
    case Emit(other, text) => MessageGrows(st.global, Message(other, text), id);
    case Finish(other, outcome) => MessageGrows(st.global, Terminal(other, outcome), id);
    case FailAll(error, order) => FailEachSaysNothing(st, error, order, id);
    case GlobalNotice(text) => MessageGrows(st.global, Notice(text), id);
  }

  /** Over every run: the global log has each operation's messages, all of them,
      once, in order, and word for word. */
  lemma {:induction false} TheMirrorSaysAll(st: Histories.State, steps: seq<Histories.Step>, id: string)
    ensures Messages(Histories.Of(Histories.Run(st, steps).global, id))
         == Messages(Histories.Of(st.global, id)) + EmittedFor(st, steps, id)
    decreases steps
  {
    if steps != [] {
      StepSays(st, steps[0], id);
      TheMirrorSaysAll(Histories.Next(st, steps[0]), steps[1..], id);
    }
  }

  // --------------------------------------------------------------------- single locks

  /** The outcome of the first call to finish. */
  function FirstTried(steps: seq<Races.Step>): Option<Outcome> {
    if steps == [] then None
    else if steps[0].TryFinish? then Some(steps[0].outcome)
    else FirstTried(steps[1..])
  }

  /** Over every run: the operation's outcome is that of whoever called `finish`
      first. */
  lemma {:induction false} TheFirstFinishDecides(id: string, st: Races.State, steps: seq<Races.Step>)
    ensures Races.Run(id, st, steps).outcome == if st.outcome.Some? then st.outcome else FirstTried(steps)
    decreases steps
  {
    if steps != [] {
      TheFirstFinishDecides(id, Races.Next(id, st, steps[0]), steps[1..]);
    }
  }

  function NowEmitted(id: string, step: Races.Step): seq<Frame> {
    if step.EmitWrites? then [Message(id, step.text)] else []
  }

  /** The messages a run emits. */
  function Emitted(id: string, steps: seq<Races.Step>): seq<Frame> {
    if steps == [] then []
    else
      Emitted(id, steps[..|steps| - 1]) + NowEmitted(id, steps[|steps| - 1])
  }

  lemma {:induction false} RunOfLast(id: string, st: Races.State, steps: seq<Races.Step>)
    requires steps != []
    ensures Races.Run(id, st, steps)
         == Races.Next(id, Races.Run(id, st, steps[..|steps| - 1]), steps[|steps| - 1])
    decreases steps
  {
    if |steps| == 1 {
      assert steps[..0] == [] && steps[1..] == [];
    } else {
      assert steps[1..][..|steps| - 2] == steps[..|steps| - 1][1..];
      RunOfLast(id, Races.Next(id, st, steps[0]), steps[1..]);
    }
  }

  /** What was emitted is on the mirror or still on its way there; the mirror has
      also the terminal frame once the winner put it there. */
  ghost predicate OnItsWay(id: string, st: Races.State, emitted: seq<Frame>) {
    multiset(st.global) + multiset(st.unmirrored) == multiset(emitted) + multiset(Races.MirroredFrames(id, st))
  }

  /** The log has what was emitted, up to where it was closed. */
  ghost predicate Logged(st: Races.State, emitted: seq<Frame>) {
    Messages(st.log) <= emitted && (st.winner != Races.Closed ==> Messages(st.log) == emitted)
  }

  lemma MovedOver(global: seq<Frame>, waiting: seq<Frame>, i: nat)
    requires i < |waiting|
    ensures multiset(global + [waiting[i]]) + multiset(waiting[..i] + waiting[i + 1..])
         == multiset(global) + multiset(waiting)
  {
    assert waiting == waiting[..i] + [waiting[i]] + waiting[i + 1..];
  }

  lemma OneMoreOnEachSide(a: multiset<Frame>, s: seq<Frame>, t: seq<Frame>, b: multiset<Frame>, f: Frame)
    requires a + multiset(s) == multiset(t) + b
    ensures a + multiset(s + [f]) == multiset(t + [f]) + b
  {
    var x, y := a + multiset(s + [f]), multiset(t + [f]) + b;
    forall g
      ensures x[g] == y[g]
    {
      assert (a + multiset(s))[g] == (multiset(t) + b)[g];
      assert multiset(s + [f])[g] == multiset(s)[g] + multiset([f])[g];
      assert multiset(t + [f])[g] == multiset(t)[g] + multiset([f])[g];
    }
    SameCounts(x, y);
  }

  lemma OneMoreMirrored(s: seq<Frame>, a: multiset<Frame>, b: multiset<Frame>, f: Frame)
    requires multiset(s) + a == b
    ensures multiset(s + [f]) + a == b + multiset([f])
  {
    var x, y := multiset(s + [f]) + a, b + multiset([f]);
    forall g
      ensures x[g] == y[g]
    {
      assert (multiset(s) + a)[g] == b[g];
      assert multiset(s + [f])[g] == multiset(s)[g] + multiset([f])[g];
    }
    SameCounts(x, y);
  }

  lemma EmitIsOnItsWay(id: string, st: Races.State, text: string, emitted: seq<Frame>)
    requires OnItsWay(id, st, emitted)
    ensures OnItsWay(id, Races.Next(id, st, Races.EmitWrites(text)), emitted + [Message(id, text)])
  {
    OneMoreOnEachSide(multiset(st.global), st.unmirrored, emitted, multiset(Races.MirroredFrames(id, st)),
                      Message(id, text));
  }

  lemma OthersMirrorNothing(id: string, st: Races.State, step: Races.Step)
    requires Races.Inv(id, st) && !step.EmitWrites? && !step.EmitMirrors?
    requires step.WinnerMirrors? ==> Races.Next(id, st, step) == st
    ensures var next := Races.Next(id, st, step);
      && next.global == st.global && next.unmirrored == st.unmirrored
      && Races.MirroredFrames(id, next) == Races.MirroredFrames(id, st)
  {
  }

  lemma WinnerIsOnItsWay(id: string, st: Races.State, step: Races.Step, emitted: seq<Frame>)
    requires Races.Inv(id, st) && OnItsWay(id, st, emitted) && !step.EmitWrites? && !step.EmitMirrors?
    ensures OnItsWay(id, Races.Next(id, st, step), emitted)
  {
    var next := Races.Next(id, st, step);
    if step.WinnerMirrors? && next != st {
      var f := Terminal(id, st.outcome.value);
      assert Races.MirroredFrames(id, st) == [] && Races.MirroredFrames(id, next) == [f];
      assert multiset(emitted) + multiset(Races.MirroredFrames(id, st)) == multiset(emitted);
      OneMoreMirrored(st.global, multiset(st.unmirrored), multiset(emitted), f);
    } else {
      OthersMirrorNothing(id, st, step);
    }
  }

  lemma MirrorIsOnItsWay(id: string, st: Races.State, index: nat, emitted: seq<Frame>)
    requires OnItsWay(id, st, emitted) && index < |st.unmirrored|
    ensures OnItsWay(id, Races.Next(id, st, Races.EmitMirrors(index)), emitted)
  {
    MovedOver(st.global, st.unmirrored, index);
  }

  lemma StepIsOnItsWay(id: string, st: Races.State, step: Races.Step, emitted: seq<Frame>)
    requires Races.Inv(id, st) && OnItsWay(id, st, emitted)
    ensures OnItsWay(id, Races.Next(id, st, step), emitted + NowEmitted(id, step))
  {
    if step.EmitWrites? {
      EmitIsOnItsWay(id, st, step.text, emitted);
    } else {
      assert emitted + NowEmitted(id, step) == emitted;
      if !step.EmitMirrors? {
        WinnerIsOnItsWay(id, st, step, emitted);
      } else if step.index < |st.unmirrored| {
        MirrorIsOnItsWay(id, st, step.index, emitted);
      }
    }
  }

  lemma StepIsLogged(id: string, st: Races.State, step: Races.Step, emitted: seq<Frame>)
    requires Races.Inv(id, st) && Logged(st, emitted)
    ensures Logged(Races.Next(id, st, step), emitted + NowEmitted(id, step))
  {
    var next := Races.Next(id, st, step);
    if step.EmitWrites? {
      SplitGrows(st.log, IsMessage(), Message(id, step.text));
    } else {
      assert emitted + NowEmitted(id, step) == emitted;
      if step.WinnerWrites? && next != st {
        SplitGrows(st.log, IsMessage(), Terminal(id, st.outcome.value));
        assert Messages(st.log) + [] == Messages(st.log);
        assert Messages(next.log) == Messages(st.log);
      } else {
        assert next.log == st.log;
      }
    }
  }

  /** Over every run, however emits and finishes interleave: each message emitted is
      on the mirror or on its way there, exactly once; and the operation's own log
      has them in order, all of them until the log is closed. */
  lemma {:induction false} NoMessageIsLost(id: string, steps: seq<Races.Step>)
    ensures var st := Races.Run(id, Races.START, steps);
      OnItsWay(id, st, Emitted(id, steps)) && Logged(st, Emitted(id, steps))
    decreases |steps|
  {
    if steps != [] {
      var before := steps[..|steps| - 1];
      var st := Races.Run(id, Races.START, before);
      NoMessageIsLost(id, before);
      Races.OneTerminalOutcome(id, Races.START, before);
      RunOfLast(id, Races.START, steps);
      StepIsOnItsWay(id, st, steps[|steps| - 1], Emitted(id, before));
      StepIsLogged(id, st, steps[|steps| - 1], Emitted(id, before));
    }
  }

  // ---------------------------------------------------------------------- creators

  /** A creator passes the check exactly when fewer than the cap run; its operation
      then runs until it is finished; and giving up frees the creator. */
  lemma CreatorsSay(cap: nat, creators: set<nat>, st: Creators.State, c: nat, op: nat)
    ensures c in creators && c !in st.admitted ==>
      (c in Creators.Next(cap, creators, st, Creators.Check(c)).admitted <==> |st.running| < cap)
    ensures c in st.admitted && op !in st.running ==>
      Creators.Next(cap, creators, st, Creators.Insert(c, op)) == Creators.State(st.running + {op}, st.admitted - {c})
    ensures Creators.Next(cap, creators, st, Creators.Finish(op)) == Creators.State(st.running - {op}, st.admitted)
    ensures Creators.Next(cap, creators, st, Creators.Abandon(c)) == Creators.State(st.running, st.admitted - {c})
  {
  }
}
