/**
 What the steps of a conversation answer (sidecar/src/bridge-host.ts): which inputs
 and interrupts are accepted and what they do, and what each terminal frame says.
 */
module TurnAnswers {
  import opened Wrappers
  import opened Turns

  /** A missing turn id, or an empty one. */
  predicate NoTurn(id: Option<string>) {
    id == None || id == Some("")
  }

  /** An input is delivered exactly when the conversation is open and it names no
      turn, or the running one, or one while none runs. Naming one makes it the
      running turn, with a claim of its own when none ran. */
  lemma InputSays(st: State, named: Option<string>)
    ensures var next := Next(st, Input(named));
      if st.closed || !(NoTurn(named) || st.turn.None? || st.turn == named) then next == st
      else
        && next.turn == (if NoTurn(named) then st.turn else named)
        && next.claims == st.claims + (if NoTurn(named) || st.turn.Some? then [] else [named.value])
        && next.pushed == st.pushed + [Push(if NoTurn(named) then None else named, next.turn)]
        && next.frames == st.frames && next.interrupting == st.interrupting && next.lost == st.lost
  {
  }

  /** An interrupt takes the running turn, which is the last claim, exactly when
      the conversation is open and it names no turn or that one. Its frame waits. */
  lemma InterruptSays(st: State, call: nat, expected: Option<string>)
    requires Inv(st) && call !in st.interrupting
    ensures var next := Next(st, Interrupt(call, expected));
      if st.closed || st.turn.None? || !(NoTurn(expected) || st.turn == expected) then next == st
      else
        && next.turn == None && call in next.interrupting
        && st.claims[next.interrupting[call]] == st.turn.value && next.interrupting[call] + 1 == |st.claims|
        && next.frames == st.frames && next.claims == st.claims && next.pushed == st.pushed
  {
  }

  /** An awaited interrupt answers for the claim it took, and for that one only. */
  lemma AwaitedInterruptSays(st: State, call: nat, resolved: bool)
    requires Inv(st) && call in st.interrupting
    ensures var next := Next(st, if resolved then InterruptResolves(call) else InterruptRejects(call));
      var claim := st.interrupting[call];
      && call !in next.interrupting && next.turn == st.turn && next.claims == st.claims
      && next.frames == st.frames + (if resolved then [Frame(claim, st.claims[claim], Interrupted)] else [])
      && next.lost == st.lost + (if resolved then {} else {claim})
  {
  }

  /** What ends a running turn, and the status its frame must carry: a result has
      failed unless it is a success without an error. */
  predicate Ends(step: Step) {
    step.Result? || step.StreamEnds? || step.Close?
  }

  ghost predicate SaysWhy(step: Step, status: Status) {
    && (status == Completed <==> step == Result(true, false))
    && (status == Interrupted <==> step == Close || step.InterruptResolves?)
    && (status == Failed ==> step.StreamEnds? || (step.Result? && (!step.success || step.isError)))
  }

  /** Ending a running turn settles it, with the status the step stands for. */
  lemma EndingSays(st: State, step: Step)
    requires Inv(st) && Ends(step) && st.turn.Some?
    ensures var next := Next(st, step);
      && next.turn == None
      && |next.frames| == |st.frames| + 1 && st.frames < next.frames
      && next.frames[|st.frames|].turn == st.turn.value && next.frames[|st.frames|].claim == |st.claims| - 1
      && SaysWhy(step, next.frames[|st.frames|].status)
  {
  }

  /** With no turn running nothing is settled. */
  lemma NothingToEnd(st: State, step: Step)
    requires Inv(st) && Ends(step) && st.turn.None?
    ensures Next(st, step).frames == st.frames
  {
  }

  lemma StepSaysWhy(st: State, step: Step)
    requires Inv(st)
    ensures var was, now := st.frames, Next(st, step).frames;
      now == was || (|now| == |was| + 1 && was < now && SaysWhy(step, now[|was|].status))
  {
    if Ends(step) {
      if st.turn.Some? {
        EndingSays(st, step);
      } else {
        NothingToEnd(st, step);
      }
    }
  }

  /** Step k of the run made frame i, with the status it stands for. */
  ghost predicate Made(steps: seq<Step>, k: nat, i: nat)
    requires k < |steps|
  {
    var was, now := Run(START, steps[..k]).frames, Run(START, steps[..k + 1]).frames;
    |was| == i && |now| == i + 1 && SaysWhy(steps[k], now[i].status)
  }

  lemma MadeBefore(steps: seq<Step>, k: nat, i: nat)
    requires k + 1 < |steps| && Made(steps[..|steps| - 1], k, i)
    ensures Made(steps, k, i)
  {
    var before := steps[..|steps| - 1];
    assert before[..k] == steps[..k] && before[..k + 1] == steps[..k + 1];
  }

  /** Over every run: each terminal frame was made by one step that stands for its
      status, and no later step changes it: `Completed` only by a success without
      an error. */
  lemma {:induction false} FramesSayWhy(steps: seq<Step>, i: nat)
    requires i < |Run(START, steps).frames|
    ensures exists k :: 0 <= k < |steps| && Made(steps, k, i) && SaysWhy(steps[k], Run(START, steps).frames[i].status)
    decreases |steps|
  {
    var n := |steps| - 1;
    var st := Run(START, steps[..n]);
    ClaimsAreSettled(START, steps[..n]);
    RunOfLast(START, steps);
    StepSaysWhy(st, steps[n]);
    if i < |st.frames| {
      FramesSayWhy(steps[..n], i);
      var k :| 0 <= k < n && Made(steps[..n], k, i) && SaysWhy(steps[..n][k], st.frames[i].status);
      MadeBefore(steps, k, i);
    } else {
      assert steps[..n + 1] == steps;
      assert Made(steps, n, i);
    }
  }
}
