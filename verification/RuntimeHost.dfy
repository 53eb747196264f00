/**
 The supervisor of the bridge host process (src-tauri/src/bridge/host.rs):
 processes die and are replaced while RPCs, readers and retirements race.

 Every lock-holding block is a step of its own: the start lock is held from
 taking a dead process to installing its successor, while the in-flight table
 and the liveness flags change under anyone's hands.
 */
module HostGenerations {
  import opened Wrappers

  /** The number of a host process, in the order they were started. */
  type Gen = nat
  type RpcId = nat

  /** What is sent on an RPC's channel. */
  datatype Answer = Reply(value: string) | HostExited(gen: Gen)

  /** The in-flight RPCs of one generation. */
  function OfGeneration(inflight: map<RpcId, Gen>, g: Gen): set<RpcId> {
    set id | id in inflight && inflight[id] == g
  }

  /** Who holds the start lock, and how far it got. */
  datatype Lock =
    | Unlocked
    | EnsureTook(gen: Gen)
    | EnsureAbandoned(gen: Gen)
    | EnsureClean
    | EnsureSpawned(gen: Gen)
    | RetireTook(gen: Gen)
    | RetireAbandoned(gen: Gen)

  /** A process's reader task: its pipe closed, it found its process replaced
      and still has to release the RPCs, or it is done. */
  datatype Reader = Reading | Exited | Replaced | Done

  datatype State = State(
    lock: Lock,
    slot: Option<Gen>,
    generations: Gen,
    alive: set<Gen>,
    readers: map<Gen, Reader>,
    inflight: map<RpcId, Gen>,
    /** Every RPC ever put in flight: its generation, and what its channel got. */
    tags: map<RpcId, Gen>,
    sent: map<RpcId, seq<Answer>>,
    /** RPCs put in flight under a generation that had already been retired. */
    stragglers: set<RpcId>,
    /** The generations retired under the lock, in order. */
    retired: seq<Gen>,
    /** The generations whose end ran `fail_all`, each with the number of
        processes started by then. */
    failedAll: seq<(Gen, Gen)>)

  const START := State(Unlocked, None, 0, {}, map[], map[], map[], map[], {}, [], [])

  datatype Step =
    | Ensure | EnsureAbandons | EnsureFailsAll | SpawnFails | Spawn | Install
    | HostDies(gen: Gen) | ReaderExits(gen: Gen)
    | Retire(gen: Gen) | RetireAbandons | RetireFailsAll | LateAbandon(gen: Gen)
    | Call(id: RpcId, gen: Gen) | Reply(id: RpcId, value: string) | GiveUp(id: RpcId)

  function Abandon(st: State, g: Gen): State {
    st.(inflight := st.inflight - OfGeneration(st.inflight, g),
        sent := map id | id in st.sent ::
          if id in OfGeneration(st.inflight, g) then st.sent[id] + [HostExited(g)] else st.sent[id])
  }

  function Next(st: State, step: Step): State {
    match step
    case Ensure =>
      if st.lock != Unlocked then st
      else if st.slot.None? then st.(lock := EnsureClean)
      else if st.slot.value in st.alive then st
      else st.(slot := None, lock := EnsureTook(st.slot.value))
    case EnsureAbandons =>
      if !st.lock.EnsureTook? then st
      else Abandon(st, st.lock.gen).(lock := EnsureAbandoned(st.lock.gen), retired := st.retired + [st.lock.gen])
    case EnsureFailsAll =>
      if !st.lock.EnsureAbandoned? then st
      else st.(lock := EnsureClean, failedAll := st.failedAll + [(st.lock.gen, st.generations)])
    case SpawnFails => if st.lock != EnsureClean then st else st.(lock := Unlocked)
    case Spawn =>
      if st.lock != EnsureClean then st
      else
        var g := st.generations;
        st.(lock := EnsureSpawned(g), generations := g + 1, alive := st.alive + {g},
            readers := st.readers[g := Reading])
    case Install =>
      if !st.lock.EnsureSpawned? then st else st.(slot := Some(st.lock.gen), lock := Unlocked)
    case HostDies(g) => st.(alive := st.alive - {g})
    case ReaderExits(g) =>
      if g !in st.readers || st.readers[g] != Reading then st
      else st.(alive := st.alive - {g}, readers := st.readers[g := Exited])
    case Retire(g) =>
      if st.lock != Unlocked || g !in st.readers || st.readers[g] != Exited then st
      else if st.slot == Some(g) then st.(slot := None, lock := RetireTook(g))
      else st.(readers := st.readers[g := Replaced])
    case RetireAbandons =>
      if !st.lock.RetireTook? then st
      else Abandon(st, st.lock.gen).(lock := RetireAbandoned(st.lock.gen), retired := st.retired + [st.lock.gen])
    case RetireFailsAll =>
      if !st.lock.RetireAbandoned? then st
      else st.(lock := Unlocked, readers := st.readers[st.lock.gen := Done],
               failedAll := st.failedAll + [(st.lock.gen, st.generations)])
    case LateAbandon(g) =>
      if g !in st.readers || st.readers[g] != Replaced then st
      else Abandon(st, g).(readers := st.readers[g := Done])
    case Call(id, g) =>
      // Whoever ever got the handle of a process may still write under it.
      if id in st.tags || g >= st.generations then st
      else st.(inflight := st.inflight[id := g], tags := st.tags[id := g], sent := st.sent[id := []],
               stragglers := if g in st.retired then st.stragglers + {id} else st.stragglers)
    case Reply(id, value) =>
      if id !in st.inflight || id !in st.sent then st
      else st.(inflight := st.inflight - {id}, sent := st.sent[id := st.sent[id] + [Answer.Reply(value)]])
    case GiveUp(id) => st.(inflight := st.inflight - {id})
  }

  function Run(st: State, steps: seq<Step>): State
    decreases steps
  {
    if steps == [] then st else Run(Next(st, steps[0]), steps[1..])
  }

  /** 0, 1, …, n - 1, each once. */
  ghost predicate CountsTo(s: seq<Gen>, n: Gen) {
    |s| == n && forall i :: 0 <= i < n ==> s[i] == i
  }

  /** How many generations have been retired: all but the one installed, being
      installed, or just taken out. */
  function Behind(st: State): Gen {
    var pending := st.slot.Some? || st.lock.EnsureSpawned? || st.lock.EnsureTook? || st.lock.RetireTook?;
    if pending && st.generations > 0 then st.generations - 1 else st.generations
  }

  /** The lock and the slot: at most one current generation, the newest. */
  ghost predicate LockInv(st: State) {
    && (st.slot.Some? ==> st.lock == Unlocked && st.slot.value + 1 == st.generations)
    && (!st.lock.Unlocked? && !st.lock.EnsureClean? ==> st.lock.gen + 1 == st.generations)
  }

  /** Every generation behind the current one was retired, exactly once, in
      order. */
  ghost predicate RetiredInv(st: State) {
    CountsTo(st.retired, Behind(st))
  }

  ghost predicate FailedInv(st: State) {
    forall i :: 0 <= i < |st.failedAll| ==> st.failedAll[i].0 + 1 == st.failedAll[i].1
  }

  /** A process found replaced is not the current one. */
  ghost predicate ReadersInv(st: State) {
    && (forall g :: g in st.readers ==> g < st.generations)
    && (forall g :: g in st.readers && st.readers[g] == Replaced ==> g < Behind(st))
  }

  /** One RPC: in flight and unanswered, or answered at most once, and by a
      retirement only if of its own generation, which was retired. */
  ghost predicate RpcOk(st: State, id: RpcId) {
    && id in st.sent && id in st.tags
    && |st.sent[id]| <= 1
    && (id in st.inflight ==> st.sent[id] == [] && st.inflight[id] == st.tags[id])
    && (forall a :: a in st.sent[id] && a.HostExited? ==> a.gen == st.tags[id] && a.gen < Behind(st))
    && (id in st.inflight && st.tags[id] < Behind(st) ==> id in st.stragglers)
  }

  ghost predicate RpcInv(st: State) {
    && st.inflight.Keys <= st.tags.Keys
    && (forall id :: id in st.tags ==> RpcOk(st, id))
    && (forall id :: id in st.tags ==> st.tags[id] < st.generations)
  }

  ghost predicate Inv(st: State) {
    LockInv(st) && RetiredInv(st) && FailedInv(st) && ReadersInv(st) && RpcInv(st)
  }

  lemma StepKeepsLock(st: State, step: Step)
    requires LockInv(st)
    ensures LockInv(Next(st, step))
    ensures Behind(st) <= Behind(Next(st, step))
  {
  }

  lemma StepKeepsRetired(st: State, step: Step)
    requires LockInv(st) && RetiredInv(st)
    ensures RetiredInv(Next(st, step))
  {
  }

  lemma StepKeepsReaders(st: State, step: Step)
    requires LockInv(st) && FailedInv(st) && ReadersInv(st)
    ensures FailedInv(Next(st, step)) && ReadersInv(Next(st, step))
  {
    StepKeepsLock(st, step);
  }

  /** An abandoned generation must be behind the current one. */
  lemma AbandonKeepsRpcs(st: State, g: Gen, next: State)
    requires RpcInv(st) && g < Behind(next)
    requires Behind(next) == Behind(st) || (Behind(next) == g + 1 && Behind(st) == g)
    requires next.inflight == Abandon(st, g).inflight && next.sent == Abandon(st, g).sent
    requires next.tags == st.tags && next.stragglers == st.stragglers && next.generations == st.generations
    ensures RpcInv(next)
  {
    forall id | id in next.tags ensures RpcOk(next, id) {
      assert RpcOk(st, id);
    }
  }

  lemma CallKeepsRpcs(st: State, id: RpcId, g: Gen)
    requires RetiredInv(st) && RpcInv(st)
    ensures RpcInv(Next(st, Step.Call(id, g)))
  {
    var next := Next(st, Step.Call(id, g));
    forall other | other in next.tags ensures RpcOk(next, other) {
      assert other in st.tags ==> RpcOk(st, other);
      if other !in st.tags && g < Behind(st) {
        assert st.retired[g] == g;
      }
    }
  }

  /** Calls, replies and callers giving up. */
  lemma TrafficKeepsRpcs(st: State, step: Step)
    requires RetiredInv(st) && RpcInv(st) && Traffic(step)
    ensures RpcInv(Next(st, step))
  {
    if step.Call? {
      CallKeepsRpcs(st, step.id, step.gen);
    } else {
      var next := Next(st, step);
      forall id | id in next.tags ensures RpcOk(next, id) {
        assert RpcOk(st, id);
      }
    }
  }

  /** A step that leaves the RPCs alone and retires nobody. */
  lemma OtherStepsKeepRpcs(st: State, next: State)
    requires RpcInv(st)
    requires next.inflight == st.inflight && next.tags == st.tags && next.sent == st.sent
    requires next.stragglers == st.stragglers && st.generations <= next.generations && Behind(next) == Behind(st)
    ensures RpcInv(next)
  {
    forall id | id in next.tags ensures RpcOk(next, id) {
      assert RpcOk(st, id);
    }
  }

  predicate Abandons(step: Step) {
    step.EnsureAbandons? || step.RetireAbandons? || step.LateAbandon?
  }

  predicate Traffic(step: Step) {
    step.Call? || step.Reply? || step.GiveUp?
  }

  lemma OtherStepsAreQuiet(st: State, step: Step)
    requires LockInv(st) && !Abandons(step) && !Traffic(step)
    ensures var next := Next(st, step);
      && next.inflight == st.inflight && next.tags == st.tags && next.sent == st.sent
      && next.stragglers == st.stragglers && st.generations <= next.generations && Behind(next) == Behind(st)
  {
  }

  lemma AbandonStepsKeepRpcs(st: State, step: Step)
    requires LockInv(st) && ReadersInv(st) && RpcInv(st) && Abandons(step)
    ensures RpcInv(Next(st, step))
  {
    var next := Next(st, step);
    match step
    case EnsureAbandons => if st.lock.EnsureTook? { AbandonKeepsRpcs(st, st.lock.gen, next); }
    case RetireAbandons => if st.lock.RetireTook? { AbandonKeepsRpcs(st, st.lock.gen, next); }
    case LateAbandon(g) => if g in st.readers && st.readers[g] == Replaced { AbandonKeepsRpcs(st, g, next); }
  }

  lemma StepKeepsRpcs(st: State, step: Step)
    requires Inv(st)
    ensures RpcInv(Next(st, step))
  {
    if Abandons(step) {
      AbandonStepsKeepRpcs(st, step);
    } else if Traffic(step) {
      TrafficKeepsRpcs(st, step);
    } else {
      OtherStepsAreQuiet(st, step);
      OtherStepsKeepRpcs(st, Next(st, step));
    }
  }

  lemma StepKeeps(st: State, step: Step)
    requires Inv(st)
    ensures Inv(Next(st, step))
  {
    StepKeepsLock(st, step);
    StepKeepsRetired(st, step);
    StepKeepsReaders(st, step);
    StepKeepsRpcs(st, step);
  }

  /** Generation isolation, over every interleaving. */
  lemma {:induction false} GenerationsAreIsolated(st: State, steps: seq<Step>)
    requires Inv(st)
    ensures Inv(Run(st, steps))
    decreases steps
  {
    if steps != [] {
      StepKeeps(st, steps[0]);
      GenerationsAreIsolated(Next(st, steps[0]), steps[1..]);
    }
  }

  /** What isolation means to a caller, from the empty supervisor: while a
      generation is installed all its predecessors, and only they, have been
      retired once each; no RPC of its own was failed by any cleanup; every
      `fail_all` ran before a later generation started; and an RPC left behind
      by its retired generation was written after the retirement. */
  lemma InstalledGenerationIsSafe(steps: seq<Step>, g: Gen)
    requires Run(START, steps).slot == Some(g)
    ensures var st := Run(START, steps);
      && CountsTo(st.retired, g)
      && (forall id :: id in st.tags && st.tags[id] == g ==>
          id in st.sent && forall a :: a in st.sent[id] ==> a.Reply?)
      && (forall i :: 0 <= i < |st.failedAll| ==> st.failedAll[i].0 + 1 == st.failedAll[i].1)
      && (forall id :: id in st.inflight && st.inflight[id] != g ==> id in st.stragglers)
  {
    GenerationsAreIsolated(START, steps);
    var st := Run(START, steps);
    forall id | id in st.tags ensures RpcOk(st, id) {
    }
  }

  /** The steps one undisturbed `ensure` takes. */
  function EnsureSteps(st: State, started: bool): seq<Step> {
    if st.slot.Some? && st.slot.value in st.alive then [Step.Ensure]
    else
      [Step.Ensure] + (if st.slot.Some? then [EnsureAbandons, EnsureFailsAll] else [])
      + (if started then [Spawn, Install] else [SpawnFails])
  }

  /** The steps one undisturbed retirement takes. */
  function RetireSteps(st: State, g: Gen): seq<Step> {
    if st.slot == Some(g) then [Step.Retire(g), RetireAbandons, RetireFailsAll] else [Step.Retire(g), LateAbandon(g)]
  }

  lemma {:induction false} RunOfConcat(st: State, a: seq<Step>, b: seq<Step>)
    ensures Run(st, a + b) == Run(Run(st, a), b)
    decreases a
  {
    if a == [] {
      assert a + b == b;
    } else {
      assert (a + b)[0] == a[0] && (a + b)[1..] == a[1..] + b;
      RunOfConcat(Next(st, a[0]), a[1..], b);
    }
  }

  lemma RunOfOne(st: State, a: Step)
    ensures Run(st, [a]) == Next(st, a)
  {
    assert Run(Next(st, a), [a][1..]) == Next(st, a);
  }

  lemma RunOfTwo(st: State, a: Step, b: Step)
    ensures Run(st, [a, b]) == Next(Next(st, a), b)
  {
    assert [a, b][1..] == [b];
    RunOfOne(Next(st, a), b);
  }

  lemma RunOfThree(st: State, a: Step, b: Step, c: Step)
    ensures Run(st, [a, b, c]) == Next(Next(Next(st, a), b), c)
  {
    assert [a, b, c][1..] == [b, c];
    RunOfTwo(Next(st, a), b, c);
  }
}

/** The supervisor's methods: undisturbed, each is its sequence of steps. */
module RuntimeHosts {
  import opened Wrappers
  import opened HostGenerations

  class RuntimeHost {
    /** The installed process, if any, and the next one's number. */
    var running: Option<Gen>
    var generations: Gen
    var alive: set<Gen>
    var inflight: map<RpcId, Gen>
    ghost var readers: map<Gen, Reader>
    ghost var tags: map<RpcId, Gen>
    ghost var sent: map<RpcId, seq<Answer>>
    ghost var stragglers: set<RpcId>
    ghost var retired: seq<Gen>
    ghost var failedAll: seq<(Gen, Gen)>

    ghost function View(): State
      reads this
    {
      State(Unlocked, running, generations, alive, readers, inflight, tags, sent, stragglers, retired, failedAll)
    }

    ghost predicate Valid()
      reads this
    {
      Inv(View())
    }

    constructor ()
      ensures Valid() && View() == START
    {
      running, generations, alive, inflight := None, 0, {}, map[];
      readers, tags, sent, stragglers, retired, failedAll := map[], map[], map[], {}, [], [];
    }

    /** Fail one generation's RPCs, each exactly once, and no other. */
    method AbandonGeneration(g: Gen)
      requires inflight.Keys <= sent.Keys
      modifies this`inflight, this`sent
      ensures View() == Abandon(old(View()), g)
    {
      var ids := OfGeneration(inflight, g);
      inflight := inflight - ids;
      ghost var all := ids;
      while ids != {}
        invariant ids <= all && all <= sent.Keys && sent.Keys == old(sent).Keys
        invariant inflight == old(inflight) - all
        invariant forall id :: id in sent ==>
          sent[id] == if id in all - ids then old(sent)[id] + [HostExited(g)] else old(sent)[id]
        decreases |ids|
      {
        var id :| id in ids;
        ids := ids - {id};
        sent := sent[id := sent[id] + [HostExited(g)]];
      }
      assert sent == Abandon(old(View()), g).sent;
    }

    /** Clean up after a process whose reader ended, unless it was replaced: then
        only its own RPCs are released and no operation is failed. */
    method Retire(dead: Gen)
      requires Valid() && dead in readers && readers[dead] == Exited
      modifies this
      ensures Valid() && View() == Run(old(View()), RetireSteps(old(View()), dead))
      ensures old(running) != Some(dead) ==> running == old(running) && failedAll == old(failedAll)
    {
      ghost var end := Run(View(), RetireSteps(View(), dead));
      GenerationsAreIsolated(View(), RetireSteps(View(), dead));
      if running != Some(dead) {
        ReleaseReplaced(dead);
      } else {
        RetireInstalled(dead);
      }
      assert View() == end;
    }

    method ReleaseReplaced(dead: Gen)
      requires inflight.Keys <= sent.Keys && dead in readers && readers[dead] == Exited && running != Some(dead)
      modifies this`inflight, this`sent, this`readers
      ensures View() == Run(old(View()), [Step.Retire(dead), LateAbandon(dead)])
    {
      RunOfTwo(View(), Step.Retire(dead), LateAbandon(dead));
      AbandonGeneration(dead);
      readers := readers[dead := Done];
    }

    method RetireInstalled(dead: Gen)
      requires inflight.Keys <= sent.Keys && dead in readers && readers[dead] == Exited && running == Some(dead)
      modifies this
      ensures View() == Run(old(View()), [Step.Retire(dead), RetireAbandons, RetireFailsAll])
    {
      RunOfThree(View(), Step.Retire(dead), RetireAbandons, RetireFailsAll);
      running := None;
      RetireLocked(dead);
      readers := readers[dead := Done];
    }

    method RetireLocked(dead: Gen)
      requires inflight.Keys <= sent.Keys
      modifies this`inflight, this`sent, this`retired, this`failedAll
      ensures View() == Abandon(old(View()), dead)
                        .(retired := old(retired) + [dead], failedAll := old(failedAll) + [(dead, generations)])
    {
      AbandonGeneration(dead);
      retired, failedAll := retired + [dead], failedAll + [(dead, generations)];
    }

    /** The installed live process, or a new one after the dead one was
        retired; `started` says whether the process could be spawned. */
    method Ensure(started: bool) returns (r: Option<Gen>)
      requires Valid()
      modifies this
      ensures Valid() && View() == Run(old(View()), EnsureSteps(old(View()), started))
      ensures if r.Some? then running == r && r.value in alive else running == None && !started
      ensures old(running).Some? && old(running).value in old(alive) ==> r == old(running) && unchanged(this)
    {
      ghost var end := Run(View(), EnsureSteps(View(), started));
      GenerationsAreIsolated(View(), EnsureSteps(View(), started));
      if running.Some? && running.value in alive {
        RunOfOne(View(), Step.Ensure);
        return running;
      }
      r := Replace(started);
      assert View() == end;
    }

    /** No live process is installed: the dead one, if any, goes first. */
    method Replace(started: bool) returns (r: Option<Gen>)
      requires inflight.Keys <= sent.Keys && (running.Some? ==> running.value !in alive)
      modifies this
      ensures View() == Run(old(View()), EnsureSteps(old(View()), started))
      ensures if r.Some? then running == r && r.value in alive else running == None && !started
    {
      ghost var taken := if running.Some? then [Step.Ensure, EnsureAbandons, EnsureFailsAll] else [Step.Ensure];
      ghost var rest := if started then [Spawn, Install] else [SpawnFails];
      assert EnsureSteps(View(), started) == taken + rest;
      RunOfConcat(View(), taken, rest);
      TakeDead();
      r := Start(started);
    }

    method Start(started: bool) returns (r: Option<Gen>)
      requires running == None
      modifies this`generations, this`alive, this`readers, this`running
      ensures View() == Run(old(View()).(lock := EnsureClean), if started then [Spawn, Install] else [SpawnFails])
      ensures if r.Some? then running == r && r.value in alive else running == None && !started
    {
      if !started {
        RunOfOne(View().(lock := EnsureClean), SpawnFails);
        return None;
      }
      RunOfTwo(View().(lock := EnsureClean), Spawn, Install);
      var g := generations;
      generations := generations + 1;
      alive := alive + {g};
      readers := readers[g := Reading];
      running := Some(g);
      r := running;
    }

    /** The first half of `ensure`: a dead process is taken out and retired. */
    method TakeDead()
      requires inflight.Keys <= sent.Keys && (running.Some? ==> running.value !in alive)
      modifies this
      ensures running == None
      ensures View().(lock := EnsureClean) ==
        Run(old(View()), if old(running).Some? then [Step.Ensure, EnsureAbandons, EnsureFailsAll] else [Step.Ensure])
    {
      if running.Some? {
        RunOfThree(View(), Step.Ensure, EnsureAbandons, EnsureFailsAll);
        var dead := running.value;
        running := None;
        RetireLocked(dead);
      } else {
        RunOfOne(View(), Step.Ensure);
      }
    }

    /** An RPC is put in flight under the process it was handed to. */
    method PutInFlight(id: RpcId, g: Gen)
      requires Valid() && id !in tags && g < generations
      modifies this`inflight, this`tags, this`sent, this`stragglers
      ensures Valid() && View() == Next(old(View()), Step.Call(id, g))
    {
      ghost var next := Next(View(), Step.Call(id, g));
      StepKeeps(View(), Step.Call(id, g));
      inflight := inflight[id := g];
      tags, sent := tags[id := g], sent[id := []];
      stragglers := if g in retired then stragglers + {id} else stragglers;
      assert View() == next;
    }

    method ResolveInflight(id: RpcId, value: string)
      requires Valid()
      modifies this`inflight, this`sent
      ensures Valid() && View() == Next(old(View()), Step.Reply(id, value))
      ensures id in old(inflight) ==> id !in inflight && sent[id] == [Answer.Reply(value)]
      ensures id !in old(inflight) ==> inflight == old(inflight) && sent == old(sent)
    {
      StepKeeps(View(), Step.Reply(id, value));
      if id in inflight {
        inflight := inflight - {id};
        sent := sent[id := sent[id] + [Answer.Reply(value)]];
      }
    }

    method DropInflight(id: RpcId)
      requires Valid()
      modifies this`inflight
      ensures Valid() && View() == Next(old(View()), GiveUp(id))
    {
      StepKeeps(View(), GiveUp(id));
      inflight := inflight - {id};
    }
  }
}
