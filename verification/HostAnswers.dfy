/**
 What the callers of the bridge host are told (src-tauri/src/bridge/host.rs): each
 answer has its cause, no RPC is forgotten, and a dead process is replaced.
 */
module HostAnswers {
  import opened Wrappers
  import opened HostGenerations

  /** The generation a step abandons, if any. */
  function Abandoned(st: State, step: Step): Option<Gen> {
    match step
    case EnsureAbandons => if st.lock.EnsureTook? then Some(st.lock.gen) else None
    case RetireAbandons => if st.lock.RetireTook? then Some(st.lock.gen) else None
    case LateAbandon(g) => if g in st.readers && st.readers[g] == Replaced then Some(g) else None
    case _ => None
  }

  /** The step sends this answer on the RPC's channel: the value of a reply to it,
      or the end of the generation it was written to. */
  predicate Answers(st: State, step: Step, id: RpcId, a: Answer) {
    id in st.inflight
    && match a
       case Reply(value) => step == Step.Reply(id, value)
       case HostExited(g) => st.inflight[id] == g && Abandoned(st, step) == Some(g)
  }

  predicate Told(st: State, id: RpcId, a: Answer) {
    id in st.sent && a in st.sent[id]
  }

  /** A reply to an RPC in flight carries its value to that caller and to no
      other. */
  lemma ReplyIsDelivered(st: State, id: RpcId, value: string)
    requires Inv(st) && id in st.inflight
    ensures var next := Next(st, Step.Reply(id, value));
      && next.sent[id] == [Answer.Reply(value)] && id !in next.inflight
      && forall other :: other != id ==>
           && (other in next.inflight <==> other in st.inflight)
           && (other in next.sent <==> other in st.sent)
           && (other in st.inflight ==> next.inflight[other] == st.inflight[other])
           && (other in st.sent ==> next.sent[other] == st.sent[other])
  {
    assert RpcOk(st, id);
  }

  /** Abandoning a generation tells each of its callers, once, and nobody else. */
  lemma AbandonedAreTold(st: State, g: Gen)
    requires Inv(st)
    ensures var next := Abandon(st, g);
      && (forall id :: id in st.inflight && st.inflight[id] == g ==>
          id !in next.inflight && next.sent[id] == [HostExited(g)])
      && (forall id :: id in st.inflight && st.inflight[id] != g ==>
          id in next.inflight && next.inflight[id] == st.inflight[id] && next.sent[id] == [])
      && (forall id :: id in st.sent && id !in st.inflight ==>
          id !in next.inflight && next.sent[id] == st.sent[id])
  {
    forall id | id in st.inflight
      ensures RpcOk(st, id)
    {
    }
  }

  /** A call is in flight, unanswered, under the process it was handed. */
  lemma ACallIsInFlight(st: State, id: RpcId, g: Gen)
    requires Inv(st) && id !in st.tags && g < st.generations
    ensures var next := Next(st, Step.Call(id, g));
      && id in next.inflight && next.inflight[id] == g && id in next.sent && next.sent[id] == []
      && forall other :: other in st.inflight ==> other in next.inflight && next.inflight[other] == st.inflight[other]
  {
  }

  lemma TrafficAnswers(st: State, step: Step, id: RpcId, a: Answer)
    requires Inv(st) && SentIsTagged(st) && Traffic(step)
    ensures Told(Next(st, step), id, a) <==> Told(st, id, a) || Answers(st, step, id, a)
  {
    if step.Reply? && step.id in st.inflight {
      ReplyIsDelivered(st, step.id, step.value);
      assert RpcOk(st, step.id);
    }
  }

  lemma AbandonAnswers(st: State, step: Step, id: RpcId, a: Answer)
    requires Inv(st) && SentIsTagged(st) && Abandons(step)
    ensures Told(Next(st, step), id, a) <==> Told(st, id, a) || Answers(st, step, id, a)
  {
    var g := Abandoned(st, step);
    if g.Some? {
      AbandonedAreTold(st, g.value);
      assert Next(st, step).sent == Abandon(st, g.value).sent;
      assert id in st.inflight ==> RpcOk(st, id);
    }
  }

  /** Only RPCs that were put in flight have a channel. */
  ghost predicate SentIsTagged(st: State) {
    st.sent.Keys <= st.tags.Keys
  }

  lemma StepAnswers(st: State, step: Step, id: RpcId, a: Answer)
    requires Inv(st) && SentIsTagged(st)
    ensures Told(Next(st, step), id, a) <==> Told(st, id, a) || Answers(st, step, id, a)
    ensures SentIsTagged(Next(st, step))
  {
    if Traffic(step) {
      TrafficAnswers(st, step, id, a);
    } else if Abandons(step) {
      AbandonAnswers(st, step, id, a);
    } else {
      OtherStepsAreQuiet(st, step);
    }
  }

  lemma {:induction false} RunOfLast(st: State, steps: seq<Step>)
    requires steps != []
    ensures Run(st, steps) == Next(Run(st, steps[..|steps| - 1]), steps[|steps| - 1])
    decreases steps
  {
    if |steps| == 1 {
      assert steps[..0] == [] && steps[1..] == [];
    } else {
      assert steps[1..][..|steps| - 2] == steps[..|steps| - 1][1..];
      RunOfLast(Next(st, steps[0]), steps[1..]);
    }
  }

  /** Some step of the run sent the answer. */
  ghost predicate Caused(steps: seq<Step>, id: RpcId, a: Answer) {
    exists k :: 0 <= k < |steps| && Answers(Run(START, steps[..k]), steps[k], id, a)
  }

  lemma CausedGrows(steps: seq<Step>, id: RpcId, a: Answer)
    requires steps != []
    ensures var n := |steps| - 1;
      Caused(steps, id, a) <==> Caused(steps[..n], id, a) || Answers(Run(START, steps[..n]), steps[n], id, a)
  {
    var n := |steps| - 1;
    assert forall k :: 0 <= k < n ==> steps[..n][..k] == steps[..k] && steps[..n][k] == steps[k];
  }

  /** Over every run: a caller is told something exactly when some step of the run
      said so while its RPC was in flight: a value only by a reply to that RPC
      with that value, an end only by the end of the generation it was written
      to. */
  lemma {:induction false} EveryAnswerHasItsCause(steps: seq<Step>, id: RpcId, a: Answer)
    ensures Told(Run(START, steps), id, a) <==> Caused(steps, id, a)
    ensures SentIsTagged(Run(START, steps))
    decreases |steps|
  {
    if steps != [] {
      var n := |steps| - 1;
      EveryAnswerHasItsCause(steps[..n], id, a);
      GenerationsAreIsolated(START, steps[..n]);
      RunOfLast(START, steps);
      CausedGrows(steps, id, a);
      StepAnswers(Run(START, steps[..n]), steps[n], id, a);
    }
  }

  predicate GaveUp(st: State, step: Step, id: RpcId) {
    step == GiveUp(id) && id in st.inflight
  }

  /** An RPC is in flight and unanswered, or was answered once, or was given up. */
  ghost predicate AccountedFor(st: State, id: RpcId, gaveUp: bool) {
    && id in st.sent
    && (id in st.inflight ==> st.sent[id] == [] && !gaveUp)
    && (id !in st.inflight ==> |st.sent[id]| == if gaveUp then 0 else 1)
  }

  lemma TrafficAccounts(st: State, step: Step, id: RpcId, gaveUp: bool)
    requires Inv(st) && Traffic(step) && id in st.tags && AccountedFor(st, id, gaveUp)
    ensures AccountedFor(Next(st, step), id, gaveUp || GaveUp(st, step, id))
  {
  }

  lemma AbandonAccounts(st: State, step: Step, id: RpcId, gaveUp: bool)
    requires Inv(st) && Abandons(step) && id in st.tags && AccountedFor(st, id, gaveUp)
    ensures AccountedFor(Next(st, step), id, gaveUp)
  {
    var g := Abandoned(st, step);
    if g.Some? {
      AbandonedAreTold(st, g.value);
      assert Next(st, step).sent == Abandon(st, g.value).sent;
      assert Next(st, step).inflight == Abandon(st, g.value).inflight;
    }
  }

  lemma StepAccounts(st: State, step: Step, id: RpcId, gaveUp: bool)
    requires Inv(st) && id in st.tags && AccountedFor(st, id, gaveUp)
    ensures AccountedFor(Next(st, step), id, gaveUp || GaveUp(st, step, id))
  {
    if Traffic(step) {
      TrafficAccounts(st, step, id, gaveUp);
    } else if Abandons(step) {
      AbandonAccounts(st, step, id, gaveUp);
    } else {
      OtherStepsAreQuiet(st, step);
    }
  }

  /** Only a call puts an RPC in flight. */
  lemma FirstAccounts(st: State, step: Step, id: RpcId)
    requires Inv(st) && id !in st.tags && id in Next(st, step).tags
    ensures AccountedFor(Next(st, step), id, false) && !GaveUp(st, step, id)
  {
  }

  /** The caller gave up while its RPC was in flight. */
  ghost predicate GivenUp(steps: seq<Step>, id: RpcId) {
    exists k :: 0 <= k < |steps| && GaveUp(Run(START, steps[..k]), steps[k], id)
  }

  lemma GivenUpGrows(steps: seq<Step>, id: RpcId)
    requires steps != []
    ensures var n := |steps| - 1;
      GivenUp(steps, id) <==> GivenUp(steps[..n], id) || GaveUp(Run(START, steps[..n]), steps[n], id)
  {
    var n := |steps| - 1;
    assert forall k :: 0 <= k < n ==> steps[..n][..k] == steps[..k] && steps[..n][k] == steps[k];
  }

  /** Over every run: each RPC that was ever written is still in flight and
      unanswered, or was answered exactly once, or was given up in flight; and
      only one of these. */
  lemma {:induction false} NoRpcIsForgotten(steps: seq<Step>, id: RpcId)
    ensures var st := Run(START, steps);
      if id in st.tags then AccountedFor(st, id, GivenUp(steps, id)) else !GivenUp(steps, id)
    decreases |steps|
  {
    if steps != [] {
      var n := |steps| - 1;
      var st := Run(START, steps[..n]);
      NoRpcIsForgotten(steps[..n], id);
      GenerationsAreIsolated(START, steps[..n]);
      RunOfLast(START, steps);
      GivenUpGrows(steps, id);
      OneStepAccounts(st, steps[n], id, GivenUp(steps[..n], id));
    }
  }

  lemma OneStepAccounts(st: State, step: Step, id: RpcId, gaveUp: bool)
    requires Inv(st)
    ensures var next, now := Next(st, step), gaveUp || GaveUp(st, step, id);
      (if id in st.tags then AccountedFor(st, id, gaveUp) else !gaveUp) ==>
        if id in next.tags then AccountedFor(next, id, now) else !now
  {
    TagsStay(st, step);
    if id in st.tags {
      if AccountedFor(st, id, gaveUp) {
        StepAccounts(st, step, id, gaveUp);
      }
    } else if id in Next(st, step).tags {
      FirstAccounts(st, step, id);
    }
  }

  lemma TagsStay(st: State, step: Step)
    ensures st.tags.Keys <= Next(st, step).tags.Keys
  {
  }

  // ------------------------------------------------------------- retired and failed

  /** Every retired generation failed the operations, in order; only the one being
      retired has not yet. */
  ghost predicate AllFailed(st: State) {
    var pending := st.lock.EnsureAbandoned? || st.lock.RetireAbandoned?;
    && |st.failedAll| == |st.retired| - (if pending then 1 else 0)
    && forall i :: 0 <= i < |st.failedAll| ==> st.failedAll[i].0 == i
  }

  lemma StepFailsAll(st: State, step: Step)
    requires LockInv(st) && RetiredInv(st) && AllFailed(st)
    ensures AllFailed(Next(st, step))
  {
  }

  lemma {:induction false} EveryRetirementFailsAll(st: State, steps: seq<Step>)
    requires Inv(st) && AllFailed(st)
    ensures AllFailed(Run(st, steps))
    decreases steps
  {
    if steps != [] {
      StepKeeps(st, steps[0]);
      StepFailsAll(st, steps[0]);
      EveryRetirementFailsAll(Next(st, steps[0]), steps[1..]);
    }
  }

  /** A process that died is replaced by the next undisturbed `ensure`: it was
      retired, its callers were told, and a new one is installed and alive. */
  lemma ADeadHostIsReplaced(st: State, g: Gen)
    requires Inv(st) && st.slot == Some(g)
    ensures var dead := Next(st, HostDies(g));
      var end := Run(dead, EnsureSteps(dead, true));
      && end.slot == Some(st.generations) && st.generations in end.alive && st.generations > g
      && end.retired == st.retired + [g] && end.failedAll == st.failedAll + [(g, st.generations)]
      && end.sent == Abandon(st, g).sent && end.inflight == Abandon(st, g).inflight
  {
    var dead := Next(st, HostDies(g));
    var took := Next(dead, Step.Ensure);
    var clean := Next(Next(took, EnsureAbandons), EnsureFailsAll);
    assert EnsureSteps(dead, true) == [Step.Ensure, EnsureAbandons, EnsureFailsAll] + [Spawn, Install];
    RunOfConcat(dead, [Step.Ensure, EnsureAbandons, EnsureFailsAll], [Spawn, Install]);
    RunOfThree(dead, Step.Ensure, EnsureAbandons, EnsureFailsAll);
    RunOfTwo(clean, Spawn, Install);
  }

  /** A process whose output ended is taken out by its own undisturbed
      retirement, and its callers are told. */
  lemma AnEndedHostIsTakenOut(st: State, g: Gen)
    requires Inv(st) && st.slot == Some(g) && g in st.readers && st.readers[g] == Reading
    ensures var ended := Next(st, ReaderExits(g));
      var end := Run(ended, RetireSteps(ended, g));
      && end.slot == None && g !in end.alive
      && end.retired == st.retired + [g] && end.failedAll == st.failedAll + [(g, st.generations)]
      && end.sent == Abandon(st, g).sent && end.inflight == Abandon(st, g).inflight
  {
    RunOfThree(Next(st, ReaderExits(g)), Step.Retire(g), RetireAbandons, RetireFailsAll);
  }

  /** When it was replaced meanwhile, its callers are told and nothing else
      happens. */
  lemma AReplacedHostTakesOutNobody(st: State, g: Gen)
    requires Inv(st) && st.lock == Unlocked && st.slot != Some(g) && g in st.readers && st.readers[g] == Reading
    ensures var ended := Next(st, ReaderExits(g));
      var end := Run(ended, RetireSteps(ended, g));
      && end.slot == st.slot && end.retired == st.retired && end.failedAll == st.failedAll
      && end.sent == Abandon(st, g).sent && end.inflight == Abandon(st, g).inflight
  {
    RunOfTwo(Next(st, ReaderExits(g)), Step.Retire(g), LateAbandon(g));
  }
}
