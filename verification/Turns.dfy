/**
 Who owns a conversation's turn (sidecar/src/bridge-host.ts): inputs claim the
 turn slot; results, interrupts, closing and the end of the stream release it,
 each with its terminal frame. The code between two awaits is one step.
 */
module Turns {
  import opened Wrappers

  datatype Status = Completed | Failed | Interrupted

  /** A terminal frame, with the number of the claim it settles. */
  datatype Frame = Frame(claim: nat, turn: string, status: Status)

  /** An input handed to the conversation: the turn it named, and the turn that
      was running when it was pushed. */
  datatype Push = Push(named: Option<string>, running: Option<string>)

  datatype State = State(
    turn: Option<string>,
    closed: bool,
    ended: bool,
    /** The turn each claim of the slot was made for. */
    claims: seq<string>,
    /** Interrupts that took a claim and still wait for the SDK. */
    interrupting: map<nat, nat>,
    /** Claims whose interrupt was rejected. */
    lost: set<nat>,
    frames: seq<Frame>,
    pushed: seq<Push>)

  datatype Step =
    | Input(named: Option<string>)
    | Interrupt(call: nat, expected: Option<string>)
    | InterruptResolves(call: nat)
    | InterruptRejects(call: nat)
    | Result(success: bool, isError: bool)
    | StreamEnds
    | Close

  const START := State(None, false, false, [], map[], {}, [], [])

  /** A missing or empty turn id names no turn. */
  function Named(id: Option<string>): Option<string> {
    if id == Some("") then None else id
  }

  /** The turn slot is given up with a terminal frame. */
  function Settle(st: State, status: Status): State {
    if st.turn.None? || st.claims == [] then st
    else st.(turn := None, frames := st.frames + [Frame(|st.claims| - 1, st.turn.value, status)])
  }

  /** `session.input` names a turn other than the running one. */
  predicate Busy(st: State, named: Option<string>) {
    Named(named).Some? && st.turn.Some? && st.turn != Named(named)
  }

  function Next(st: State, step: Step): State {
    match step
    case Input(named) =>
      if st.closed || Busy(st, named) then st
      else
        var claims := Named(named).Some? && st.turn.None?;
        var turn := if claims then Named(named) else st.turn;
        st.(turn := turn, claims := if claims then st.claims + [Named(named).value] else st.claims,
            pushed := st.pushed + [Push(Named(named), turn)])
    case Interrupt(call, expected) =>
      if st.closed || Busy(st, expected) || st.turn.None? || st.claims == [] || call in st.interrupting then st
      else st.(turn := None, interrupting := st.interrupting[call := |st.claims| - 1])
    case InterruptResolves(call) =>
      if call !in st.interrupting || st.interrupting[call] >= |st.claims| then st
      else
        var claim := st.interrupting[call];
        st.(interrupting := st.interrupting - {call},
            frames := st.frames + [Frame(claim, st.claims[claim], Interrupted)])
    case InterruptRejects(call) =>
      if call !in st.interrupting then st
      else st.(interrupting := st.interrupting - {call}, lost := st.lost + {st.interrupting[call]})
    case Result(success, isError) =>
      if st.ended then st else Settle(st, if success && !isError then Completed else Failed)
    case StreamEnds => if st.ended then st else Settle(st, Failed).(closed := true, ended := true)
    case Close => if st.closed then st else Settle(st, Interrupted).(closed := true)
  }

  function Run(st: State, steps: seq<Step>): State
    decreases steps
  {
    if steps == [] then st else Run(Next(st, steps[0]), steps[1..])
  }

  /** How many terminal frames a claim got. */
  function Count(frames: seq<Frame>, claim: nat): nat {
    if frames == [] then 0
    else Count(frames[..|frames| - 1], claim) + if frames[|frames| - 1].claim == claim then 1 else 0
  }

  lemma CountAppend(frames: seq<Frame>, f: Frame, claim: nat)
    ensures Count(frames + [f], claim) == Count(frames, claim) + if f.claim == claim then 1 else 0
  {
    assert (frames + [f])[..|frames|] == frames;
  }

  predicate Current(st: State, claim: nat) {
    st.turn.Some? && claim + 1 == |st.claims|
  }

  /** A claim holds the slot, waits for its interrupt, was lost, or has exactly
      one terminal frame. */
  ghost predicate ClaimOk(st: State, claim: nat) {
    var waits := claim in st.interrupting.Values;
    && (Current(st, claim) ==> !waits && claim !in st.lost)
    && (waits ==> claim !in st.lost)
    && Count(st.frames, claim) == if Current(st, claim) || waits || claim in st.lost then 0 else 1
  }

  ghost predicate Inv(st: State) {
    && (st.turn.Some? ==> st.claims != [] && st.turn.value == st.claims[|st.claims| - 1])
    && (st.ended ==> st.closed)
    && (st.closed ==> st.turn.None?)
    && (forall call :: call in st.interrupting ==> st.interrupting[call] < |st.claims|)
    && (forall a, b :: a in st.interrupting && b in st.interrupting && a != b ==>
        st.interrupting[a] != st.interrupting[b])
    && (forall c :: c in st.lost ==> c < |st.claims|)
    && (forall i :: 0 <= i < |st.frames| ==>
        st.frames[i].claim < |st.claims| && st.frames[i].turn == st.claims[st.frames[i].claim])
    && (forall c :: 0 <= c < |st.claims| ==> ClaimOk(st, c))
    && (forall i :: 0 <= i < |st.pushed| && st.pushed[i].named.Some? ==> st.pushed[i].named == st.pushed[i].running)
  }

  lemma {:induction false} NoFrameNoCount(frames: seq<Frame>, claim: nat)
    requires forall i :: 0 <= i < |frames| ==> frames[i].claim != claim
    ensures Count(frames, claim) == 0
  {
    if frames != [] {
      NoFrameNoCount(frames[..|frames| - 1], claim);
    }
  }

  lemma SettleKeeps(st: State, status: Status)
    requires Inv(st)
    ensures Inv(Settle(st, status)) && Settle(st, status).turn.None?
  {
    var next := Settle(st, status);
    if next != st {
      var f := Frame(|st.claims| - 1, st.turn.value, status);
      forall c | 0 <= c < |next.claims| ensures ClaimOk(next, c) {
        assert ClaimOk(st, c);
        CountAppend(st.frames, f, c);
      }
    }
  }

  lemma InputKeeps(st: State, named: Option<string>)
    requires Inv(st)
    ensures Inv(Next(st, Input(named)))
  {
    var next := Next(st, Input(named));
    forall c | 0 <= c < |next.claims| ensures ClaimOk(next, c) {
      if c < |st.claims| {
        assert ClaimOk(st, c);
      } else {
        NoFrameNoCount(st.frames, c);
      }
    }
  }

  lemma InterruptKeeps(st: State, call: nat, expected: Option<string>)
    requires Inv(st)
    ensures Inv(Next(st, Interrupt(call, expected)))
  {
    var next := Next(st, Interrupt(call, expected));
    if next != st {
      var last := |st.claims| - 1;
      assert ClaimOk(st, last);
      forall c ensures c in next.interrupting.Values <==> c in st.interrupting.Values || c == last {
        if c in st.interrupting.Values {
          var a :| a in st.interrupting && st.interrupting[a] == c;
          assert next.interrupting[a] == c;
        }
        assert next.interrupting[call] == last;
      }
      forall c | 0 <= c < |next.claims| ensures ClaimOk(next, c) {
        assert ClaimOk(st, c);
      }
    }
  }

  lemma InterruptEndKeeps(st: State, step: Step)
    requires Inv(st) && (step.InterruptResolves? || step.InterruptRejects?)
    ensures Inv(Next(st, step))
  {
    var next := Next(st, step);
    if step.call in st.interrupting {
      forall c | 0 <= c < |next.claims| ensures ClaimOk(next, c) {
        InterruptEndClaim(st, step, c);
      }
    }
  }

  lemma OneFewerWaits(waiting: map<nat, nat>, call: nat, c: nat)
    requires call in waiting
    requires forall a, b :: a in waiting && b in waiting && a != b ==> waiting[a] != waiting[b]
    ensures c in (waiting - {call}).Values <==> c in waiting.Values && c != waiting[call]
  {
    if c in waiting.Values && c != waiting[call] {
      var a :| a in waiting && waiting[a] == c;
      assert (waiting - {call})[a] == c;
    }
  }

  lemma InterruptEndClaim(st: State, step: Step, c: nat)
    requires Inv(st) && (step.InterruptResolves? || step.InterruptRejects?)
    requires step.call in st.interrupting && c < |st.claims|
    ensures ClaimOk(Next(st, step), c)
  {
    var claim := st.interrupting[step.call];
    assert claim in st.interrupting.Values && ClaimOk(st, c);
    OneFewerWaits(st.interrupting, step.call, c);
    CountAppend(st.frames, Frame(claim, st.claims[claim], Interrupted), c);
  }

  lemma StepKeepsInv(st: State, step: Step)
    requires Inv(st)
    ensures Inv(Next(st, step))
  {
    match step
    case Input(named) => InputKeeps(st, named);
    case Interrupt(call, expected) => InterruptKeeps(st, call, expected);
    case InterruptResolves(_) => InterruptEndKeeps(st, step);
    case InterruptRejects(_) => InterruptEndKeeps(st, step);
    case Result(success, isError) => SettleKeeps(st, if success && !isError then Completed else Failed);
    case StreamEnds =>
      SettleKeeps(st, Failed);
      EndingKeeps(Settle(st, Failed), Settle(st, Failed).(closed := true, ended := true));
    case Close =>
      SettleKeeps(st, Interrupted);
      EndingKeeps(Settle(st, Interrupted), Settle(st, Interrupted).(closed := true));
  }

  lemma EndingKeeps(st: State, next: State)
    requires Inv(st) && st.turn.None?
    requires next == st.(closed := true, ended := next.ended)
    ensures Inv(next)
  {
    forall c | 0 <= c < |next.claims| ensures ClaimOk(next, c) {
      assert ClaimOk(st, c);
    }
  }

  lemma {:induction false} ClaimsAreSettled(st: State, steps: seq<Step>)
    requires Inv(st)
    ensures Inv(Run(st, steps))
    decreases steps
  {
    if steps != [] {
      StepKeepsInv(st, steps[0]);
      ClaimsAreSettled(Next(st, steps[0]), steps[1..]);
    }
  }

  /** Turn claims: over every interleaving each claim gets at most one terminal
      frame, for its own turn; once the stream has ended and no interrupt is
      pending it gets exactly one, unless its interrupt was rejected; and input
      that names a turn is pushed only into that turn. */
  lemma EveryClaimIsSettledOnce(steps: seq<Step>)
    ensures var st := Run(START, steps);
      && (forall c :: 0 <= c < |st.claims| ==> Count(st.frames, c) <= 1)
      && (st.ended && st.interrupting == map[] ==>
          forall c :: 0 <= c < |st.claims| ==> (Count(st.frames, c) == 1 <==> c !in st.lost))
      && (forall i :: 0 <= i < |st.frames| ==>
          st.frames[i].claim < |st.claims| && st.frames[i].turn == st.claims[st.frames[i].claim])
      && (forall i :: 0 <= i < |st.pushed| && st.pushed[i].named.Some? ==> st.pushed[i].running == st.pushed[i].named)
  {
    ClaimsAreSettled(START, steps);
    var st := Run(START, steps);
    assert st.interrupting == map[] ==> st.interrupting.Values == {};
    forall c | 0 <= c < |st.claims|
      ensures Count(st.frames, c) <= 1
      ensures st.ended && st.interrupting == map[] ==> (Count(st.frames, c) == 1 <==> c !in st.lost)
    {
      assert ClaimOk(st, c);
    }
  }

  lemma {:induction false} CountFinds(frames: seq<Frame>, claim: nat)
    ensures Count(frames, claim) >= 1 <==> exists i :: 0 <= i < |frames| && frames[i].claim == claim
    ensures forall i, j :: 0 <= i < j < |frames| && frames[i].claim == claim && frames[j].claim == claim ==>
      Count(frames, claim) >= 2
  {
    if frames != [] {
      var front := frames[..|frames| - 1];
      CountFinds(front, claim);
      if Count(frames, claim) >= 1 && frames[|frames| - 1].claim != claim {
        var i :| 0 <= i < |front| && front[i].claim == claim;
        assert frames[i].claim == claim;
      }
      forall i, j | 0 <= i < j < |frames| && frames[i].claim == claim && frames[j].claim == claim
        ensures Count(frames, claim) >= 2
      {
        assert front[i].claim == claim;
      }
    }
  }

  /** A turn gets a second terminal frame exactly when it was claimed a second
      time and both claims were settled. */
  lemma FramesOfATurn(steps: seq<Step>, turn: string)
    ensures var st := Run(START, steps);
      (exists i, j :: 0 <= i < j < |st.frames| && st.frames[i].turn == turn && st.frames[j].turn == turn) <==>
      (exists c, d :: 0 <= c < d < |st.claims| && st.claims[c] == turn && st.claims[d] == turn
                      && Count(st.frames, c) == 1 && Count(st.frames, d) == 1)
  {
    EveryClaimIsSettledOnce(steps);
    var st := Run(START, steps);
    if i, j :| 0 <= i < j < |st.frames| && st.frames[i].turn == turn && st.frames[j].turn == turn {
      var a, b := st.frames[i].claim, st.frames[j].claim;
      CountFinds(st.frames, a);
      CountFinds(st.frames, b);
      var c, d := if a < b then a else b, if a < b then b else a;
      assert Count(st.frames, c) == 1 && Count(st.frames, d) == 1;
    }
    if c, d :| 0 <= c < d < |st.claims| && st.claims[c] == turn && st.claims[d] == turn
               && Count(st.frames, c) == 1 && Count(st.frames, d) == 1 {
      CountFinds(st.frames, c);
      CountFinds(st.frames, d);
      var i :| 0 <= i < |st.frames| && st.frames[i].claim == c;
      var j :| 0 <= j < |st.frames| && st.frames[j].claim == d;
      var p, q := if i < j then i else j, if i < j then j else i;
      assert st.frames[p].turn == turn && st.frames[q].turn == turn;
    }
  }

  /** When all is over, a turn got two terminal frames exactly when two of its
      claims were not lost to a rejected interrupt. */
  lemma TwoFramesExactly(steps: seq<Step>, turn: string)
    requires Run(START, steps).ended && Run(START, steps).interrupting == map[]
    ensures var st := Run(START, steps);
      (exists i, j :: 0 <= i < j < |st.frames| && st.frames[i].turn == turn && st.frames[j].turn == turn) <==>
      (exists c, d :: 0 <= c < d < |st.claims| && st.claims[c] == turn && st.claims[d] == turn
                      && c !in st.lost && d !in st.lost)
  {
    EveryClaimIsSettledOnce(steps);
    FramesOfATurn(steps, turn);
  }

  /** An accepted input that names a turn while none runs. */
  predicate Claims(st: State, step: Step) {
    step.Input? && Named(step.named).Some? && !st.closed && st.turn.None?
  }

  /** ... and the turn was claimed before. */
  predicate Reclaims(st: State, step: Step, turn: string) {
    Claims(st, step) && Named(step.named) == Some(turn) && turn in st.claims
  }

  predicate ClaimedTwice(claims: seq<string>, turn: string) {
    exists c, d :: 0 <= c < d < |claims| && claims[c] == turn && claims[d] == turn
  }

  lemma {:induction false} RunOfLast(st: State, steps: seq<Step>)
    requires steps != []
    ensures Run(st, steps) == Next(Run(st, steps[..|steps| - 1]), steps[|steps| - 1])
    decreases steps
  {
    if |steps| == 1 {
      assert steps[..0] == [] && steps[1..] == [];
    } else {
      assert steps[1..][..|steps| - 2] == steps[..|steps| - 1][1..];
      RunOfLast(Next(st, steps[0]), steps[1..]);
    }
  }

  lemma RunOfOneMore(st: State, steps: seq<Step>, step: Step)
    ensures Run(st, steps + [step]) == Next(Run(st, steps), step)
  {
    assert (steps + [step])[..|steps|] == steps;
    RunOfLast(st, steps + [step]);
  }

  lemma StepClaims(st: State, step: Step, turn: string)
    ensures ClaimedTwice(Next(st, step).claims, turn) <==> ClaimedTwice(st.claims, turn) || Reclaims(st, step, turn)
  {
    var was, now := st.claims, Next(st, step).claims;
    if was != now {
      assert now == was + [Named(step.named).value];
      if Reclaims(st, step, turn) {
        var c :| 0 <= c < |was| && was[c] == turn;
        assert now[c] == turn && now[|was|] == turn;
      }
      assert forall c :: 0 <= c < |was| ==> now[c] == was[c];
    }
  }

  /** A turn is claimed twice exactly when some accepted input named it while no
      turn ran and it had been claimed before. Whoever names the turns can rule
      that out by never naming one again after its terminal frame. */
  lemma {:induction false} ClaimedTwiceExactly(steps: seq<Step>, turn: string)
    ensures ClaimedTwice(Run(START, steps).claims, turn) <==>
      exists k :: 0 <= k < |steps| && Reclaims(Run(START, steps[..k]), steps[k], turn)
    decreases |steps|
  {
    if steps != [] {
      var n := |steps| - 1;
      var before := steps[..n];
      ClaimedTwiceExactly(before, turn);
      RunOfLast(START, steps);
      StepClaims(Run(START, before), steps[n], turn);
      assert forall k :: 0 <= k < n ==> before[..k] == steps[..k] && before[k] == steps[k];
    }
  }

  /** Without rejected interrupts: two terminal frames exactly when an input
      claimed the turn again. */
  lemma SettledTwiceExactly(steps: seq<Step>, turn: string)
    requires Run(START, steps).ended && Run(START, steps).interrupting == map[] && Run(START, steps).lost == {}
    ensures var st := Run(START, steps);
      (exists i, j :: 0 <= i < j < |st.frames| && st.frames[i].turn == turn && st.frames[j].turn == turn) <==>
      (exists k :: 0 <= k < |steps| && Reclaims(Run(START, steps[..k]), steps[k], turn))
  {
    TwoFramesExactly(steps, turn);
    ClaimedTwiceExactly(steps, turn);
  }

  /** A result carries no origin: the frame it makes settles the claim whose input
      caused it exactly when that claim still holds the slot, and another claim
      exactly when one was made since and holds it. */
  lemma ResultSettlesItsCause(st: State, cause: nat, success: bool, isError: bool)
    requires Inv(st) && !st.ended && cause < |st.claims|
    ensures var frames := Next(st, Result(success, isError)).frames;
      && (frames != st.frames <==> st.turn.Some?)
      && (frames != st.frames && frames[|frames| - 1].claim == cause <==> Current(st, cause))
      && (frames != st.frames && frames[|frames| - 1].claim > cause <==> st.turn.Some? && cause + 1 < |st.claims|)
  {
    var frames := Next(st, Result(success, isError)).frames;
    assert st.turn.Some? ==> |frames| == |st.frames| + 1;
  }

  lemma StepGrowsClaims(st: State, step: Step)
    ensures |Next(st, step).claims| == |st.claims| + if Claims(st, step) then 1 else 0
  {
  }

  /** A later claim than this one was made exactly when, after it, some input
      named a turn while none ran: this claim had been given up by then. */
  lemma {:induction false} ClaimedSinceExactly(steps: seq<Step>, claim: nat)
    ensures claim + 1 < |Run(START, steps).claims| <==>
      exists j :: 0 <= j < |steps| && claim < |Run(START, steps[..j]).claims|
                  && Claims(Run(START, steps[..j]), steps[j])
    decreases |steps|
  {
    if steps != [] {
      var n := |steps| - 1;
      var before := steps[..n];
      ClaimedSinceExactly(before, claim);
      RunOfLast(START, steps);
      StepGrowsClaims(Run(START, before), steps[n]);
      assert forall j :: 0 <= j < n ==> before[..j] == steps[..j] && before[j] == steps[j];
    }
  }

  /** Over whole runs: a result settles a later claim than the one that caused it
      exactly when, after that claim, an input claimed the free slot again, and a
      turn runs. The claim had been given up by then: it has its own frame, or
      its interrupt is waited for or was rejected. */
  lemma ALateResultExactly(steps: seq<Step>, cause: nat, success: bool, isError: bool)
    requires !Run(START, steps).ended && cause < |Run(START, steps).claims|
    ensures var st, now := Run(START, steps), Run(START, steps + [Result(success, isError)]);
      var later := |now.frames| > |st.frames| && now.frames[|st.frames|].claim > cause;
      && (later <==> st.turn.Some? && exists j :: 0 <= j < |steps| && cause < |Run(START, steps[..j]).claims|
                                                  && Claims(Run(START, steps[..j]), steps[j]))
      && (later ==> Count(st.frames, cause) == 1 || cause in st.interrupting.Values || cause in st.lost)
  {
    var st := Run(START, steps);
    ClaimsAreSettled(START, steps);
    RunOfOneMore(START, steps, Result(success, isError));
    ResultSettlesItsCause(st, cause, success, isError);
    ClaimedSinceExactly(steps, cause);
    assert ClaimOk(st, cause);
  }

  /** So the late result of an interrupted turn settles the turn claimed since. */
  lemma ALateResultSettlesTheNextTurn(first: string, second: string)
    requires first != "" && second != ""
    ensures Run(START, [Input(Some(first)), Interrupt(0, None), Input(Some(second)), Result(true, false)]).frames
         == [Frame(1, second, Completed)]
  {
    RunOfFour(START, Input(Some(first)), Interrupt(0, None), Input(Some(second)), Result(true, false));
  }

  /** Frames are per claim, not per turn: a late input re-claims a turn that was
      already settled, and the turn is settled again. */
  lemma ALateInputReclaims(turn: string)
    requires turn != ""
    ensures Run(START, [Input(Some(turn)), Result(true, false), Input(Some(turn)), StreamEnds]).frames
         == [Frame(0, turn, Completed), Frame(1, turn, Failed)]
  {
    var a := Next(START, Input(Some(turn)));
    var b := Next(a, Result(true, false));
    var c := Next(b, Input(Some(turn)));
    var d := Next(c, StreamEnds);
    RunOfFour(START, Input(Some(turn)), Result(true, false), Input(Some(turn)), StreamEnds);
  }

  /** A rejected interrupt leaves its turn without a terminal frame. */
  lemma ARejectedInterruptLosesItsFrame(turn: string)
    requires turn != ""
    ensures Run(START, [Input(Some(turn)), Interrupt(0, None), InterruptRejects(0), StreamEnds]).frames == []
  {
    RunOfFour(START, Input(Some(turn)), Interrupt(0, None), InterruptRejects(0), StreamEnds);
  }

  lemma RunOfFour(st: State, a: Step, b: Step, c: Step, d: Step)
    ensures Run(st, [a, b, c, d]) == Next(Next(Next(Next(st, a), b), c), d)
  {
    var sa := Next(st, a);
    var sb := Next(sa, b);
    var sc := Next(sb, c);
    assert [a, b, c, d][1..] == [b, c, d] && [b, c, d][1..] == [c, d] && [c, d][1..] == [d] && [d][1..] == [];
    assert Run(sc, [d]) == Run(Next(sc, d), []);
    assert Run(sb, [c, d]) == Run(sc, [d]);
    assert Run(sa, [b, c, d]) == Run(sb, [c, d]);
  }

  datatype HostError = ThreadNotFound | BusyWith(turn: string) | NotRunning(turn: string)

  /** What an interrupt took before it awaits the SDK. */
  datatype Taken = AlreadyFinished | Took(claim: Option<nat>)

  /** One live conversation; the ghost fields record what the run produced. */
  class Session {
    var turnId: Option<string>
    var closed: bool
    var claimed: nat
    ghost var ended: bool
    ghost var claims: seq<string>
    ghost var interrupting: map<nat, nat>
    ghost var lost: set<nat>
    var frames: seq<Frame>
    ghost var pushed: seq<Push>
    const input: InputQueue<string>

    ghost function View(): State
      reads this
    {
      State(turnId, closed, ended, claims, interrupting, lost, frames, pushed)
    }

    ghost predicate Valid()
      reads this, input
    {
      Inv(View()) && claimed == |claims| && input.Valid()
    }

    constructor ()
      ensures Valid() && View() == START && fresh(input)
    {
      turnId, closed, claimed, frames := None, false, 0, [];
      ended, claims, interrupting, lost, pushed := false, [], map[], {}, [];
      input := new InputQueue<string>();
    }

    /** Ownership is settled before the message is pushed: a refused input is
        not delivered. */
    method Receive(named: Option<string>, message: string) returns (r: Result<Option<string>, HostError>)
      requires Valid()
      modifies this, input
      ensures Valid() && View() == Next(old(View()), Input(named))
      ensures r.Err? <==> old(closed) || Busy(old(View()), named)
      ensures r.Err? ==> r.error == if old(closed) then ThreadNotFound else BusyWith(old(turnId).value)
      ensures r.Err? ==> unchanged(this) && unchanged(input)
      ensures r.Ok? ==> r.value == turnId && (Named(named).Some? ==> turnId == Named(named))
      ensures r.Ok? && !old(input.closed) ==> input.accepted == old(input.accepted) + [message]
    {
      InputKeeps(View(), named);
      if closed {
        return Err(ThreadNotFound);
      }
      var turn := Named(named);
      if turn.Some? && turnId.Some? && turnId != turn {
        return Err(BusyWith(turnId.value));
      }
      if turn.Some? && turnId.None? {
        turnId := turn;
        claimed := claimed + 1;
        claims := claims + [turn.value];
      }
      pushed := pushed + [Push(turn, turnId)];
      input.Push(message);
      r := Ok(turnId);
    }

    /** The part of `session.interrupt` before its await: the running turn is
        read and taken at once. */
    method TakeForInterrupt(expected: Option<string>, ghost call: nat) returns (r: Result<Taken, HostError>)
      requires Valid() && call !in interrupting
      modifies this
      ensures Valid() && View() == Next(old(View()), Interrupt(call, expected))
      ensures r.Err? <==> old(closed) || Busy(old(View()), expected)
      ensures r.Err? ==> r.error == if old(closed) then ThreadNotFound else NotRunning(old(turnId).value)
      ensures r == Ok(AlreadyFinished) <==> !old(closed) && Named(expected).Some? && old(turnId).None?
      ensures r.Ok? && r.value.Took? ==>
        r.value.claim == if old(turnId).Some? then Some(old(claimed) - 1) else None
      ensures r.Ok? && r.value.Took? && r.value.claim.Some? ==>
        call in interrupting && interrupting[call] == r.value.claim.value && turnId == None
    {
      InterruptKeeps(View(), call, expected);
      if closed {
        return Err(ThreadNotFound);
      }
      var turn := Named(expected);
      if turn.Some? && turnId.Some? && turn != turnId {
        return Err(NotRunning(turnId.value));
      }
      if turn.Some? && turnId.None? {
        return Ok(AlreadyFinished);
      }
      if turnId.None? {
        return Ok(Took(None));
      }
      turnId := None;
      interrupting := interrupting[call := claimed - 1];
      r := Ok(Took(Some(claimed - 1)));
    }

    method SettleTurn(status: Status)
      requires Valid()
      modifies this`turnId, this`frames
      ensures Valid() && View() == Settle(old(View()), status)
    {
      SettleKeeps(View(), status);
      if turnId.Some? {
        frames := frames + [Frame(claimed - 1, turnId.value, status)];
        turnId := None;
      }
    }

    /** A result message of the stream: failed unless it is a success without
        an error. */
    method OnResult(success: bool, isError: bool)
      requires Valid() && !ended
      modifies this`turnId, this`frames
      ensures Valid() && View() == Next(old(View()), Result(success, isError))
      ensures old(turnId).Some? ==>
        frames == old(frames)
                  + [Frame(old(claimed) - 1, old(turnId).value, if !success || isError then Failed else Completed)]
    {
      SettleTurn(if success && !isError then Completed else Failed);
    }

    /** The part of `session.interrupt` after its await: the frame of the turn it
        took, unless the SDK rejected. */
    method AfterInterrupt(claim: nat, turn: string, resolved: bool, ghost call: nat)
      requires Valid() && call in interrupting && interrupting[call] == claim && claims[claim] == turn
      modifies this
      ensures Valid()
      ensures View() == Next(old(View()), if resolved then InterruptResolves(call) else InterruptRejects(call))
    {
      InterruptEndKeeps(View(), if resolved then InterruptResolves(call) else InterruptRejects(call));
      if resolved {
        frames := frames + [Frame(claim, turn, Interrupted)];
      } else {
        lost := lost + {claim};
      }
      interrupting := interrupting - {call};
    }

    /** The stream ends, however it ended: a turn still running has failed. */
    method OnStreamEnd()
      requires Valid() && !ended
      modifies this
      ensures Valid() && View() == Next(old(View()), StreamEnds) && closed && turnId.None?
      ensures old(turnId).Some? ==> frames == old(frames) + [Frame(old(claimed) - 1, old(turnId).value, Failed)]
    {
      StepKeepsInv(View(), StreamEnds);
      SettleTurn(Failed);
      closed, ended := true, true;
    }

    method CloseSession()
      requires Valid()
      modifies this, input
      ensures Valid() && View() == Next(old(View()), Close) && closed
      ensures old(turnId).Some? ==> frames == old(frames) + [Frame(old(claimed) - 1, old(turnId).value, Interrupted)]
      ensures input.accepted == old(input.accepted) && input.yielded == old(input.yielded)
      ensures if old(closed) then unchanged(input) else input.closed
    {
      StepKeepsInv(View(), Close);
      if closed {
        return;
      }
      SettleTurn(Interrupted);
      closed := true;
      input.Close();
    }
  }

  /** The push-driven input of a conversation: what is accepted is yielded in
      order, none lost, none twice. */
  class InputQueue<T> {
    var buffered: seq<T>
    /** Consumers parked for the next message. */
    var waiting: nat
    var closed: bool
    ghost var accepted: seq<T>
    ghost var yielded: seq<T>

    ghost predicate Valid()
      reads this
    {
      && yielded + buffered == accepted
      && (buffered != [] ==> waiting == 0)
      && (closed ==> waiting == 0)
    }

    constructor ()
      ensures Valid() && accepted == [] && yielded == [] && !closed
    {
      buffered, waiting, closed := [], 0, false;
      accepted, yielded := [], [];
    }

    method Push(message: T)
      requires Valid()
      modifies this
      ensures Valid() && closed == old(closed)
      ensures accepted == if old(closed) then old(accepted) else old(accepted) + [message]
      ensures yielded == if !old(closed) && old(waiting) > 0 then old(yielded) + [message] else old(yielded)
    {
      if closed {
        return;
      }
      accepted := accepted + [message];
      if waiting > 0 {
        waiting := waiting - 1;
        yielded := yielded + [message];
      } else {
        buffered := buffered + [message];
      }
    }

    method Close()
      requires Valid()
      modifies this
      ensures Valid() && closed && accepted == old(accepted) && yielded == old(yielded)
    {
      closed := true;
      waiting := 0;
    }

    /** The consumer asks for the next message: one at once, the end, or it
        parks. It is told the end only when everything accepted was yielded. */
    method Take() returns (message: Option<T>, done: bool)
      requires Valid()
      modifies this
      ensures Valid() && accepted == old(accepted) && closed == old(closed)
      ensures message.Some? ==> !done && yielded == old(yielded) + [message.value]
      ensures message.None? ==> yielded == old(yielded) && yielded == accepted
      ensures done <==> closed && old(yielded) == accepted
      ensures waiting == old(waiting) + if message.None? && !done then 1 else 0
    {
      if buffered != [] {
        message, done := Some(buffered[0]), false;
        yielded := yielded + [buffered[0]];
        buffered := buffered[1..];
        return;
      }
      if closed {
        return None, true;
      }
      waiting := waiting + 1;
      return None, false;
    }
  }
}
