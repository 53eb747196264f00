/**
 The registry of operations (src-tauri/src/bridge/ops.rs): eviction of finished
 operations, the turn index, and the cap on running ones.
 */
module OperationRegistries {
  import opened Wrappers
  import opened Frames
  import opened EventLogs
  import opened Operations

  /** A finished operation and when it finished. */
  datatype Stamp = Stamp(at: nat, id: string)

  predicate Sorted(s: seq<Stamp>) {
    forall i, j :: 0 <= i < j < |s| ==> s[i].at <= s[j].at
  }

  ghost function Ids(s: seq<Stamp>): set<string> {
    set x | x in s :: x.id
  }

  predicate AgedOut(s: Stamp, now: nat, retention: nat) {
    s.at <= now && now - s.at > retention
  }

  /** After evicting the first `j` of `sorted` nothing left has aged out, and the
      registry is within its cap or has nothing finished left. */
  ghost predicate Quiet(sorted: seq<Stamp>, j: nat, total: nat, cap: nat, now: nat, retention: nat)
    requires j <= |sorted|
  {
    && (forall i :: j <= i < |sorted| ==> now <= sorted[i].at + retention)
    && (total - j <= cap || j == |sorted|)
  }

  /** The eviction loop: how many of the oldest go. */
  method CountEvictions(sorted: seq<Stamp>, total: nat, cap: nat, now: nat, retention: nat) returns (k: nat)
    requires Sorted(sorted) && |sorted| <= total
    ensures k <= |sorted| && Quiet(sorted, k, total, cap, now, retention)
    ensures forall j :: 0 <= j < k ==> !Quiet(sorted, j, total, cap, now, retention)
  {
    var left := total;
    k := 0;
    while k < |sorted|
      invariant k <= |sorted| && left == total - k
      invariant forall j :: 0 <= j < k ==> !Quiet(sorted, j, total, cap, now, retention)
    {
      var agedOut := AgedOut(sorted[k], now, retention);
      var overCap := left > cap;
      if !agedOut && !overCap {
        break;
      }
      left := left - 1;
      k := k + 1;
    }
  }

  predicate DistinctIds(s: seq<Stamp>) {
    forall i, j :: 0 <= i < j < |s| ==> s[i].id != s[j].id
  }

  method InsertByTime(sorted: seq<Stamp>, s: Stamp) returns (r: seq<Stamp>, i: nat)
    requires Sorted(sorted)
    ensures i <= |sorted| && r == sorted[..i] + [s] + sorted[i..]
    ensures Sorted(r)
  {
    i := |sorted|;
    while i > 0 && sorted[i - 1].at > s.at
      invariant 0 <= i <= |sorted|
      invariant i < |sorted| ==> sorted[i].at > s.at
    {
      i := i - 1;
    }
    r := sorted[..i] + [s] + sorted[i..];
  }

  lemma InsertedElements(sorted: seq<Stamp>, s: Stamp, i: nat)
    requires i <= |sorted| && DistinctIds(sorted)
    requires forall x :: x in sorted ==> x.id != s.id
    ensures DistinctIds(sorted[..i] + [s] + sorted[i..])
    ensures forall x :: x in sorted[..i] + [s] + sorted[i..] <==> x in sorted || x == s
  {
    var r := sorted[..i] + [s] + sorted[i..];
    forall x | x in sorted ensures x in r {
      var j :| 0 <= j < |sorted| && sorted[j] == x;
      assert r[if j < i then j else j + 1] == x;
    }
    assert r[i] == s;
    forall p, q | 0 <= p < q < |r| ensures r[p].id != r[q].id {
      assert p != i ==> r[p] == sorted[if p < i then p else p - 1];
      assert q != i ==> r[q] == sorted[if q < i then q else q - 1];
    }
  }

  /** Insert a stamp of an id not in the list yet. */
  method InsertNew(sorted: seq<Stamp>, s: Stamp) returns (r: seq<Stamp>)
    requires Sorted(sorted) && DistinctIds(sorted) && forall x :: x in sorted ==> x.id != s.id
    ensures Sorted(r) && DistinctIds(r) && |r| == |sorted| + 1
    ensures forall x :: x in r <==> x in sorted || x == s
  {
    var at;
    r, at := InsertByTime(sorted, s);
    InsertedElements(sorted, s, at);
  }

  /** The ids that have finished, oldest first. */
  method SortByTime(finished: map<string, Option<nat>>) returns (sorted: seq<Stamp>)
    ensures Sorted(sorted) && DistinctIds(sorted) && |sorted| <= |finished|
    ensures forall x :: x in sorted <==> x.id in finished && finished[x.id] == Some(x.at)
  {
    sorted := [];
    var seen: set<string> := {};
    var todo := finished.Keys;
    while todo != {}
      invariant todo !! seen && todo + seen == finished.Keys
      invariant Sorted(sorted) && DistinctIds(sorted) && |sorted| <= |seen|
      invariant forall x :: x in sorted <==> x.id in seen && finished[x.id] == Some(x.at)
      decreases |todo|
    {
      var id :| id in todo;
      todo, seen := todo - {id}, seen + {id};
      if finished[id].Some? {
        sorted := InsertNew(sorted, Stamp(finished[id].value, id));
      }
    }
    assert seen == finished.Keys;
  }

  type TurnKey = (string, string)

  /** The terminal frame of an operation that failed. */
  function Failure(id: string, message: string, length: nat): Payload {
    Payload(Terminal(id, Outcome(Failed, None, Some(message))), length)
  }

  ghost function Failures(failed: seq<Operation>, message: string, length: nat): (r: seq<Payload>)
    ensures |r| == |failed| && forall i :: 0 <= i < |r| ==> r[i] == Failure(failed[i].id, message, length)
  {
    seq(|failed|, i requires 0 <= i < |failed| => Failure(failed[i].id, message, length))
  }

  lemma FailuresGrow(failed: seq<Operation>, i: nat, message: string, length: nat, before: seq<Payload>)
    requires i < |failed|
    ensures before + Failures(failed[..i + 1], message, length)
         == before + Failures(failed[..i], message, length) + [Failure(failed[i].id, message, length)]
  {
  }

  class OperationRegistry {
    var ops: map<string, Operation>
    var byTurn: map<TurnKey, string>
    const global: EventLog
    const maxActive: nat
    const maxRetained: nat
    const retention: nat
    /** The operations, their logs and the global one. */
    ghost var repr: set<object>

    ghost predicate Separate()
      reads this
    {
      && global in repr && this !in repr
      && (forall id :: id in ops ==>
          && ops[id].id == id && ops[id].log != global
          && ops[id] in repr && ops[id].log in repr)
      && (forall i, j :: i in ops && j in ops && i != j ==> ops[i].log != ops[j].log)
    }

    /** Every entry names a registered operation of that very turn. */
    ghost predicate IndexMatches()
      reads this
    {
      forall key :: key in byTurn ==>
        && byTurn[key] in ops
        && ops[byTurn[key]].threadId == Some(key.0) && ops[byTurn[key]].turnId == Some(key.1)
    }

    ghost predicate Valid()
      reads this
    {
      Separate() && IndexMatches()
    }

    constructor (maxActive: nat, maxRetained: nat, retention: nat, limits: Limits)
      ensures Valid() && ops == map[] && fresh(repr) && global.Valid() && !global.closed
    {
      ops, byTurn := map[], map[];
      var log := new EventLog(limits);
      global := log;
      repr := {log};
      this.maxActive, this.maxRetained, this.retention := maxActive, maxRetained, retention;
    }

    /** The finished operations, oldest first. */
    method FinishedByTime() returns (sorted: seq<Stamp>)
      requires Valid()
      ensures Sorted(sorted) && |sorted| <= |ops|
      ensures DistinctIds(sorted)
      ensures forall x :: x in sorted <==> x.id in ops && ops[x.id].finishedAt == Some(x.at)
    {
      var finished := map id | id in ops :: ops[id].finishedAt;
      sorted := SortByTime(finished);
      assert finished.Keys == ops.Keys;
    }

    /** What eviction takes: the shortest oldest-first prefix of the finished
        operations that leaves the registry quiet. */
    method ChooseEvicted(now: nat) returns (evicted: set<string>, ghost sorted: seq<Stamp>, ghost k: nat)
      requires Valid()
      ensures Sorted(sorted) && k <= |sorted|
      ensures forall x :: x in sorted <==> x.id in ops && ops[x.id].finishedAt == Some(x.at)
      ensures Quiet(sorted, k, |ops|, maxRetained, now, retention)
      ensures forall j :: 0 <= j < k ==> !Quiet(sorted, j, |ops|, maxRetained, now, retention)
      ensures evicted == Ids(sorted[..k])
      ensures forall id :: id in evicted ==> id in ops && ops[id].finishedAt.Some?
    {
      var finished := FinishedByTime();
      var n := CountEvictions(finished, |ops|, maxRetained, now, retention);
      evicted := set x | x in finished[..n] :: x.id;
      assert forall x :: x in finished[..n] ==> x in finished;
      sorted, k := finished, n;
    }

    method Forget(ids: set<string>)
      requires Valid()
      modifies this`ops, this`byTurn
      ensures Valid() && ops == old(ops) - ids
      ensures byTurn == map key | key in old(byTurn) && old(byTurn)[key] !in ids :: old(byTurn)[key]
    {
      ops := ops - ids;
      byTurn := map key | key in byTurn && byTurn[key] !in ids :: byTurn[key];
    }

    /** Eviction. Running operations stay, and the index forgets what went. */
    method Prune(now: nat) returns (ghost sorted: seq<Stamp>, ghost k: nat)
      requires Valid()
      requires forall id :: id in ops ==> (ops[id].status == Running <==> ops[id].finishedAt.None?)
      modifies this`ops, this`byTurn
      ensures Valid()
      ensures Sorted(sorted) && k <= |sorted|
      ensures forall x :: x in sorted <==> x.id in old(ops) && old(ops)[x.id].finishedAt == Some(x.at)
      ensures Quiet(sorted, k, |old(ops)|, maxRetained, now, retention)
      ensures forall j :: 0 <= j < k ==> !Quiet(sorted, j, |old(ops)|, maxRetained, now, retention)
      ensures ops == old(ops) - Ids(sorted[..k])
      ensures forall id :: id in old(Active()) ==> id in ops
      ensures byTurn == map key | key in old(byTurn) && old(byTurn)[key] !in Ids(sorted[..k]) :: old(byTurn)[key]
    {
      var evicted;
      evicted, sorted, k := ChooseEvicted(now);
      Forget(evicted);
    }

    /** The running operations. */
    function Active(): set<string>
      reads this, repr
      requires Separate()
    {
      set id | id in ops && ops[id].status == Running
    }

    /** Insert a running operation unless too many run. */
    method Admit(id: string, threadId: Option<string>, turnId: Option<string>, limits: Limits)
      returns (r: Option<Operation>)
      requires Valid() && id !in ops
      modifies this
      ensures Valid()
      ensures r.Some? <==> |old(Active())| < maxActive
      ensures r.None? ==> unchanged(this)
      ensures r.Some? ==>
        && fresh(r.value) && r.value.Valid() && r.value.status == Running
        && r.value.threadId == threadId && r.value.turnId == turnId
        && ops == old(ops)[id := r.value]
        && byTurn == if threadId.Some? && turnId.Some? then old(byTurn)[(threadId.value, turnId.value) := id]
                     else old(byTurn)
    {
      var active := |Active()|;
      if active >= maxActive {
        return None;
      }
      var op := new Operation(id, threadId, turnId, limits);
      Insert(op);
      r := Some(op);
    }

    method Insert(op: Operation)
      requires Valid() && op.id !in ops && op !in repr && op.log !in repr
      modifies this`ops, this`byTurn, this`repr
      ensures Valid() && ops == old(ops)[op.id := op]
      ensures byTurn ==
        if op.threadId.Some? && op.turnId.Some? then old(byTurn)[(op.threadId.value, op.turnId.value) := op.id]
        else old(byTurn)
    {
      ops := ops[op.id := op];
      repr := repr + {op, op.log};
      if op.threadId.Some? && op.turnId.Some? {
        byTurn := byTurn[(op.threadId.value, op.turnId.value) := op.id];
      }
    }

    /** Register a running operation under a fresh id, unless too many run. Old
        operations are evicted first, as `Prune` says; `k` of `sorted` went. */
    method Create(id: string, threadId: Option<string>, turnId: Option<string>, limits: Limits, now: nat)
      returns (r: Option<Operation>, ghost sorted: seq<Stamp>, ghost k: nat)
      requires Valid() && id !in ops
      requires forall i :: i in ops ==> ops[i].Valid()
      modifies this
      ensures Valid()
      ensures r.Some? <==> |old(Active())| < maxActive
      ensures Sorted(sorted) && k <= |sorted|
      ensures forall x :: x in sorted <==> x.id in old(ops) && old(ops)[x.id].finishedAt == Some(x.at)
      ensures Quiet(sorted, k, |old(ops)|, maxRetained, now, retention)
      ensures forall j :: 0 <= j < k ==> !Quiet(sorted, j, |old(ops)|, maxRetained, now, retention)
      ensures r.None? ==> ops == old(ops) - Ids(sorted[..k])
      ensures r.Some? ==>
        && fresh(r.value) && r.value.Valid() && r.value.status == Running
        && r.value.threadId == threadId && r.value.turnId == turnId
        && ops == (old(ops) - Ids(sorted[..k]))[id := r.value]
      ensures byTurn ==
        var left := map key | key in old(byTurn) && old(byTurn)[key] !in Ids(sorted[..k]) :: old(byTurn)[key];
        if r.Some? && threadId.Some? && turnId.Some? then left[(threadId.value, turnId.value) := id] else left
      ensures forall i :: i in old(Active()) ==> i in ops && ops[i] == old(ops)[i]
    {
      sorted, k := Prune(now);
      assert Active() == old(Active());
      r := Admit(id, threadId, turnId, limits);
    }

    /** Drop an operation that never started. */
    method Discard(id: string)
      requires Valid()
      modifies this`ops, this`byTurn
      ensures Valid() && ops == old(ops) - {id}
      ensures forall key :: key in byTurn <==> key in old(byTurn) && old(byTurn)[key] != id
      ensures forall key :: key in byTurn ==> byTurn[key] == old(byTurn)[key]
    {
      Forget({id});
    }

    method ForTurn(threadId: string, turnId: string) returns (op: Option<Operation>)
      requires Valid()
      ensures op.Some? <==> (threadId, turnId) in byTurn
      ensures op.Some? ==> op.value.threadId == Some(threadId) && op.value.turnId == Some(turnId)
                           && op.value.id in ops && ops[op.value.id] == op.value
    {
      if (threadId, turnId) !in byTurn {
        return None;
      }
      var id := byTurn[(threadId, turnId)];
      op := if id in ops then Some(ops[id]) else None;
    }

    ghost predicate AllValid()
      reads this, repr
      requires Separate()
    {
      && global.Valid() && !global.closed
      && (forall id :: id in ops ==> ops[id].Valid())
    }

    method FailOne(op: Operation, message: string, now: nat, length: nat)
      requires Valid() && AllValid() && op.id in ops && ops[op.id] == op
      modifies op, op.log, global
      ensures Valid() && AllValid()
      ensures old(op.status) == Running ==>
        && op.FailedWith(message) && op.finishedAt == Some(now)
        && global.history == old(global.history) + [Failure(op.id, message, length)]
        && op.log.history == old(op.log.history) + [Failure(op.id, message, length)]
      ensures forall id :: id in ops && ops[id] != op ==> unchanged(ops[id]) && unchanged(ops[id].log)
    {
      assert forall id :: id in ops && ops[id] != op ==> ops[id].log != op.log;
      var _ := op.Fail(global, message, now, length);
    }

    method RunningOperations() returns (running: seq<Operation>)
      requires Valid()
      ensures forall i :: 0 <= i < |running| ==> running[i].id in ops && ops[running[i].id] == running[i]
      ensures forall i, j :: 0 <= i < j < |running| ==> running[i] != running[j]
      ensures forall id :: id in ops ==> (ops[id].status == Running <==> ops[id] in running)
    {
      running := [];
      var todo := Active();
      while todo != {}
        invariant todo <= Active()
        invariant forall i :: 0 <= i < |running| ==>
          running[i].id in Active() - todo && ops[running[i].id] == running[i]
        invariant forall i, j :: 0 <= i < j < |running| ==> running[i] != running[j]
        invariant forall id :: id in Active() - todo ==> ops[id] in running
        decreases |todo|
      {
        var id :| id in todo;
        todo := todo - {id};
        running := running + [ops[id]];
      }
    }

    /** Fail whatever still runs, each now and with one frame on the global log;
        what had finished keeps its outcome and its log. */
    method FailAll(message: string, now: nat, length: nat) returns (ghost failed: seq<Operation>)
      requires Valid() && AllValid()
      modifies repr
      ensures Valid() && AllValid()
      ensures forall id :: id in ops ==> (ops[id] in failed <==> old(ops[id].status) == Running)
      ensures forall i, j :: 0 <= i < j < |failed| ==> failed[i] != failed[j]
      ensures forall i :: 0 <= i < |failed| ==> failed[i].id in ops && ops[failed[i].id] == failed[i]
      ensures global.history == old(global.history) + Failures(failed, message, length)
      ensures forall id :: id in ops && old(ops[id].status) == Running ==>
        ops[id].FailedWith(message) && ops[id].finishedAt == Some(now)
      ensures forall id :: id in ops && old(ops[id].status) != Running ==>
        unchanged(ops[id]) && unchanged(ops[id].log)
    {
      var running := RunningOperations();
      FailEach(running, message, now, length);
      failed := running;
    }

    /** The operations to fail: registered, each once, the first `i` of them failed
        by now and the others still running. */
    ghost predicate FailedUpTo(running: seq<Operation>, i: nat, message: string, now: nat)
      reads this, repr, running
      requires Separate() && i <= |running|
    {
      && AllValid()
      && (forall j :: 0 <= j < |running| ==> running[j].id in ops && ops[running[j].id] == running[j])
      && (forall j, k :: 0 <= j < k < |running| ==> running[j] != running[k])
      && (forall j :: 0 <= j < i ==> running[j].FailedWith(message) && running[j].finishedAt == Some(now))
      && (forall j :: i <= j < |running| ==> running[j].status == Running)
    }

    method FailEach(running: seq<Operation>, message: string, now: nat, length: nat)
      requires Valid() && FailedUpTo(running, 0, message, now)
      modifies repr
      ensures Valid() && FailedUpTo(running, |running|, message, now)
      ensures global.history == old(global.history) + Failures(running, message, length)
      ensures forall id :: id in ops && ops[id] !in running ==> unchanged(ops[id]) && unchanged(ops[id].log)
    {
      ghost var before := global.history;
      for i := 0 to |running|
        invariant Valid() && FailedUpTo(running, i, message, now)
        invariant global.history == before + Failures(running[..i], message, length)
        invariant forall id :: id in ops && ops[id] !in running ==> unchanged(ops[id]) && unchanged(ops[id].log)
      {
        FailNext(running, i, message, now, length, before);
      }
      assert running[..|running|] == running;
    }

    method FailNext(running: seq<Operation>, i: nat, message: string, now: nat, length: nat,
                    ghost before: seq<Payload>)
      requires Valid() && i < |running| && FailedUpTo(running, i, message, now)
      requires global.history == before + Failures(running[..i], message, length)
      modifies running[i], running[i].log, global
      ensures Valid() && FailedUpTo(running, i + 1, message, now)
      ensures global.history == before + Failures(running[..i + 1], message, length)
      ensures forall id :: id in ops && ops[id] !in running ==> unchanged(ops[id]) && unchanged(ops[id].log)
    {
      FailuresGrow(running, i, message, length, before);
      FailOne(running[i], message, now, length);
    }
  }
}

/**
 The cap under concurrency: `create` checks it under one lock hold and inserts
 under another.
 */
module ConcurrentCreators {
  type Id = nat

  /** `admitted` are creators past the check that have not inserted yet. */
  datatype State = State(running: set<Id>, admitted: set<Id>)

  datatype Step = Check(creator: Id) | Insert(creator: Id, op: Id) | Abandon(creator: Id) | Finish(op: Id)

  function Next(maxActive: nat, creators: set<Id>, st: State, step: Step): State {
    match step
    case Check(c) =>
      if c !in creators || c in st.admitted || |st.running| >= maxActive then st
      else st.(admitted := st.admitted + {c})
    case Insert(c, op) =>
      if c !in st.admitted || op in st.running then st
      else State(st.running + {op}, st.admitted - {c})
    case Abandon(c) => st.(admitted := st.admitted - {c})
    case Finish(op) => st.(running := st.running - {op})
  }

  function Run(maxActive: nat, creators: set<Id>, st: State, steps: seq<Step>): State
    decreases steps
  {
    if steps == [] then st else Run(maxActive, creators, Next(maxActive, creators, st, steps[0]), steps[1..])
  }

  ghost predicate Inv(maxActive: nat, creators: set<Id>, st: State) {
    && st.admitted <= creators
    && (|st.running| + |st.admitted| < maxActive + |creators| || (st.running == {} && st.admitted == {}))
  }

  lemma SubsetIsNoLarger(a: set<Id>, b: set<Id>)
    requires a <= b
    ensures |a| <= |b|
  {
    assert b == a + (b - a);
  }

  lemma StepKeepsInv(maxActive: nat, creators: set<Id>, st: State, step: Step)
    requires Inv(maxActive, creators, st)
    ensures Inv(maxActive, creators, Next(maxActive, creators, st, step))
  {
    var next := Next(maxActive, creators, st, step);
    SubsetIsNoLarger(next.admitted, creators);
    match step
    case Check(c) =>
    case Insert(c, op) =>
    case Abandon(c) => SubsetIsNoLarger(next.admitted, st.admitted);
    case Finish(op) => SubsetIsNoLarger(next.running, st.running);
  }

  /** With k creators at work there are never more than max_active - 1 + k
      running operations (none at all without a creator). */
  lemma {:induction false} ActiveIsBounded(maxActive: nat, creators: set<Id>, st: State, steps: seq<Step>)
    requires Inv(maxActive, creators, st)
    ensures Inv(maxActive, creators, Run(maxActive, creators, st, steps))
    ensures |Run(maxActive, creators, st, steps).running| < maxActive + |creators|
            || Run(maxActive, creators, st, steps).running == {}
    decreases steps
  {
    if steps != [] {
      StepKeepsInv(maxActive, creators, st, steps[0]);
      ActiveIsBounded(maxActive, creators, Next(maxActive, creators, st, steps[0]), steps[1..]);
    }
  }

  /** Running operations and creators about to add one. */
  function Load(st: State): nat {
    |st.running| + |st.admitted|
  }

  /** A check that lets its creator pass. */
  predicate Passes(maxActive: nat, creators: set<Id>, st: State, step: Step) {
    step.Check? && step.creator in creators && step.creator !in st.admitted && |st.running| < maxActive
  }

  /** The load goes over the cap exactly when a check passes although the running
      operations and the admitted creators already make up the cap. */
  lemma OverTheCapExactly(maxActive: nat, creators: set<Id>, st: State, step: Step)
    requires Load(st) <= maxActive
    ensures Load(Next(maxActive, creators, st, step)) > maxActive <==>
      Passes(maxActive, creators, st, step) && Load(st) == maxActive
  {
    var next := Next(maxActive, creators, st, step);
    SubsetIsNoLarger(next.running - st.running, next.running);
    match step
    case Check(c) =>
    case Insert(c, op) =>
    case Abandon(c) => SubsetIsNoLarger(next.admitted, st.admitted);
    case Finish(op) => SubsetIsNoLarger(next.running, st.running);
  }

  predicate OnlyInserts(steps: seq<Step>) {
    forall i :: 0 <= i < |steps| ==> steps[i].Insert?
  }

  lemma {:induction false} InsertsKeepTheLoad(maxActive: nat, creators: set<Id>, st: State, steps: seq<Step>)
    requires OnlyInserts(steps)
    ensures Load(Run(maxActive, creators, st, steps)) == Load(st)
    decreases steps
  {
    if steps != [] {
      InsertsKeepTheLoad(maxActive, creators, Next(maxActive, creators, st, steps[0]), steps[1..]);
    }
  }

  lemma {:induction false} Unused(ops: set<Id>) returns (op: Id)
    ensures forall other :: other in ops ==> other < op
  {
    if ops == {} {
      op := 0;
    } else {
      var one :| one in ops;
      var rest := Unused(ops - {one});
      op := if one < rest then rest else one + 1;
      assert forall other :: other in ops ==> other == one || other in ops - {one};
    }
  }

  /** Every admitted creator can insert. */
  lemma {:induction false} AllInsert(maxActive: nat, creators: set<Id>, st: State) returns (steps: seq<Step>)
    ensures OnlyInserts(steps) && |Run(maxActive, creators, st, steps).running| == Load(st)
    decreases |st.admitted|
  {
    if st.admitted == {} {
      steps := [];
    } else {
      var c :| c in st.admitted;
      var op := Unused(st.running);
      var rest := AllInsert(maxActive, creators, Next(maxActive, creators, st, Insert(c, op)));
      steps := [Insert(c, op)] + rest;
      assert steps[1..] == rest;
    }
  }

  /** Creators that have passed can exceed the cap, with no further check, exactly
      when the load exceeds it. */
  lemma InsertsExceedExactly(maxActive: nat, creators: set<Id>, st: State)
    ensures (exists steps :: OnlyInserts(steps) && |Run(maxActive, creators, st, steps).running| > maxActive) <==>
      Load(st) > maxActive
  {
    if steps :| OnlyInserts(steps) && |Run(maxActive, creators, st, steps).running| > maxActive {
      InsertsKeepTheLoad(maxActive, creators, st, steps);
    }
    var all := AllInsert(maxActive, creators, st);
  }

  lemma {:induction false} RunOfConcat(maxActive: nat, creators: set<Id>, st: State, a: seq<Step>, b: seq<Step>)
    ensures Run(maxActive, creators, st, a + b) == Run(maxActive, creators, Run(maxActive, creators, st, a), b)
    decreases a
  {
    if a == [] {
      assert a + b == b;
    } else {
      assert (a + b)[0] == a[0] && (a + b)[1..] == a[1..] + b;
      RunOfConcat(maxActive, creators, Next(maxActive, creators, st, a[0]), a[1..], b);
    }
  }

  lemma RunOfFirst(maxActive: nat, creators: set<Id>, st: State, step: Step, rest: seq<Step>)
    ensures Run(maxActive, creators, st, [step] + rest)
         == Run(maxActive, creators, Next(maxActive, creators, st, step), rest)
  {
    assert ([step] + rest)[1..] == rest;
  }

  /** One creator alone fills all but one place. */
  lemma {:induction false} OneFills(maxActive: nat, creators: set<Id>, c: Id, n: nat) returns (steps: seq<Step>)
    requires c in creators && n < maxActive
    ensures var st := Run(maxActive, creators, State({}, {}), steps); |st.running| == n && st.admitted == {}
    decreases n
  {
    if n == 0 {
      steps := [];
    } else {
      var before := OneFills(maxActive, creators, c, n - 1);
      var st := Run(maxActive, creators, State({}, {}), before);
      var op := Unused(st.running);
      var admitted := Next(maxActive, creators, st, Check(c));
      var end := Next(maxActive, creators, admitted, Insert(c, op));
      steps := before + [Check(c), Insert(c, op)];
      RunOfConcat(maxActive, creators, State({}, {}), before, [Check(c), Insert(c, op)]);
      assert [Check(c), Insert(c, op)][1..] == [Insert(c, op)];
      assert Run(maxActive, creators, admitted, [Insert(c, op)]) == Run(maxActive, creators, end, []);
      assert end.admitted == {};
    }
  }

  /** Below the cap every creator passes the check. */
  lemma {:induction false} AllCheck(maxActive: nat, creators: set<Id>, todo: set<Id>, st: State)
    returns (steps: seq<Step>)
    requires todo <= creators && todo !! st.admitted && |st.running| < maxActive
    ensures var end := Run(maxActive, creators, st, steps);
      end.running == st.running && end.admitted == st.admitted + todo
    decreases |todo|
  {
    if todo == {} {
      steps := [];
    } else {
      var c :| c in todo;
      CheckAdmits(maxActive, creators, st, c);
      OneChecked(creators, todo, st.admitted, c);
      var passed := st.(admitted := st.admitted + {c});
      var rest := AllCheck(maxActive, creators, todo - {c}, passed);
      steps := [Check(c)] + rest;
      RunOfFirst(maxActive, creators, st, Check(c), rest);
    }
  }

  lemma OneChecked(creators: set<Id>, todo: set<Id>, admitted: set<Id>, c: Id)
    requires c in todo && todo <= creators && todo !! admitted
    ensures todo - {c} <= creators && todo - {c} !! admitted + {c}
    ensures admitted + {c} + (todo - {c}) == admitted + todo
  {
  }

  lemma CheckAdmits(maxActive: nat, creators: set<Id>, st: State, c: Id)
    requires c in creators && c !in st.admitted && |st.running| < maxActive
    ensures Next(maxActive, creators, st, Check(c)) == st.(admitted := st.admitted + {c})
  {
  }

  /** The bound is reached, at every cap and with any number of creators. */
  lemma TheSlackIsReal(maxActive: nat, creators: set<Id>) returns (steps: seq<Step>)
    requires maxActive > 0 && creators != {}
    ensures |Run(maxActive, creators, State({}, {}), steps).running| == maxActive - 1 + |creators|
  {
    var empty := State({}, {});
    var c :| c in creators;
    var fill := OneFills(maxActive, creators, c, maxActive - 1);
    var filled := Run(maxActive, creators, empty, fill);
    var check := AllCheck(maxActive, creators, creators, filled);
    var passed := Run(maxActive, creators, filled, check);
    var inserts := AllInsert(maxActive, creators, passed);
    steps := fill + check + inserts;
    RunOfConcat(maxActive, creators, empty, fill, check);
    RunOfConcat(maxActive, creators, empty, fill + check, inserts);
    assert passed.admitted == creators;
  }
}
