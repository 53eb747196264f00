/**
 The store of requests that wait for a human (src-tauri/src/pending.rs): each
 leaves once, its raiser gets at most one decision, and recently finished ids
 are remembered.
 */
module PendingStores {
  import opened Wrappers
  import opened PendingPolicy
  import opened Shuffles

  const FINISHED_CAP := 2048

  datatype Outcome = Allowed | Denied | Answered | Expired | Cancelled | Withdrawn

  datatype Resolution = Resolution(id: string, session: string, outcome: Outcome, resolver: Option<string>)

  /** A live item and the number of its registration. */
  datatype Slot = Slot(item: Item, registration: nat)

  /** A decision that reached its raiser, and whether the caller that gave it may
      approve dangerous actions. */
  datatype Delivery = Delivery(registration: nat, item: Item, decision: Decision, mayDangerous: bool)

  datatype State = State(
    slots: map<string, Slot>,
    finished: seq<string>,
    finishedSet: set<string>,
    resolutions: map<string, Resolution>,
    /** Every id that ever finished, in order. */
    history: seq<string>,
    registered: nat,
    /** The registrations that left the store, in order. */
    left: seq<nat>,
    deliveries: seq<Delivery>)

  const EMPTY := State(map[], [], {}, map[], [], 0, [], [])

  datatype RespondError = NotFound | AlreadyDecided | NotAnswerable | Forbidden | Invalid(why: Refusal)

  datatype Step =
    /** `why` is the classifier's verdict, `spare` a new random id. */
    | Register(item: Item, why: Option<string>, spare: string, now: int)
    /** `receiving`: the raiser still waits. */
    | Resolve(id: string, decision: Decision, mayDangerous: bool, receiving: bool)
    | Withdraw(id: string, outcome: Outcome)
    | SetResolution(resolution: Resolution)

  function Last(history: seq<string>, n: nat): seq<string> {
    if |history| <= n then history else history[|history| - n..]
  }

  /** The item as stored: classified (a caller's flag can only be raised), under
      its own id unless that is taken or remembered. */
  function Stored(st: State, item: Item, why: Option<string>, spare: string, now: int): Item {
    var raised :=
      if (!item.dangerous || item.reason.None?) && why.Some? then
        item.(dangerous := true, reason := if item.reason.Some? then item.reason else why)
      else item;
    raised.(id := if item.id == "" || item.id in st.slots || item.id in st.finishedSet then spare else item.id,
            createdAt := if item.createdAt == 0 then now else item.createdAt,
            answerable := item.source != Observed)
  }

  predicate Fresh(st: State, id: string) {
    id != "" && id !in st.slots && id !in st.finishedSet
  }

  /** Why an answer is refused, before anything changes. */
  function Refused(st: State, id: string, d: Decision, mayDangerous: bool): Option<RespondError> {
    if id !in st.slots then Some(if id in st.finishedSet then AlreadyDecided else NotFound)
    else
      var item := st.slots[id].item;
      if !item.answerable then Some(NotAnswerable)
      else if Validate(item, d).Some? then Some(Invalid(Validate(item, d).value))
      else if d.allow && IsDangerous(item, d) && !mayDangerous then Some(Forbidden)
      else None
  }

  function OutcomeOf(item: Item, d: Decision): Outcome {
    if !d.allow then Denied
    else if item.kind == Question || item.kind == Elicitation then Answered
    else Allowed
  }

  /** An item goes live. */
  function Enter(st: State, item: Item): State {
    st.(slots := st.slots[item.id := Slot(item, st.registered)], registered := st.registered + 1)
  }

  /** A live item leaves: its id is remembered, the oldest one beyond the cap is
      forgotten with its resolution. */
  function Leave(st: State, id: string, outcome: Outcome): State
    requires id in st.slots
  {
    var finished := Last(st.finished + [id], FINISHED_CAP);
    var dropped := set x | x in st.finished && x !in finished;
    st.(slots := st.slots - {id},
        finished := finished,
        finishedSet := (st.finishedSet + {id}) - dropped,
        resolutions := (st.resolutions - dropped)[id := Resolution(id, st.slots[id].item.session, outcome, None)],
        history := st.history + [id],
        left := st.left + [st.slots[id].registration])
  }

  function Next(st: State, step: Step): State {
    match step
    case Register(item, why, spare, now) =>
      if !Fresh(st, spare) then st
      else
        Enter(st, Stored(st, item, why, spare, now))
    case Resolve(id, d, mayDangerous, receiving) =>
      if Refused(st, id, d, mayDangerous).Some? then st
      else
        var slot := st.slots[id];
        var gone := Leave(st, id, if receiving then OutcomeOf(slot.item, d) else Cancelled);
        if receiving then
          gone.(deliveries := st.deliveries + [Delivery(slot.registration, slot.item, d, mayDangerous)])
        else gone
    case Withdraw(id, outcome) => if id !in st.slots then st else Leave(st, id, outcome)
    case SetResolution(r) =>
      if r.id !in st.finishedSet then st else st.(resolutions := st.resolutions[r.id := r])
  }

  function Run(st: State, steps: seq<Step>): State
    decreases steps
  {
    if steps == [] then st else Run(Next(st, steps[0]), steps[1..])
  }

  // ------------------------------------------------------------------ invariants

  /** What is remembered is exactly the last ids to finish, each once, with a
      resolution, and none of them live. */
  ghost predicate Remembers(st: State) {
    && st.finished == Last(st.history, FINISHED_CAP)
    && Distinct(st.finished)
    && (forall x :: x in st.finishedSet <==> x in st.finished)
    && st.resolutions.Keys == st.finishedSet
    && (forall id :: id in st.slots ==> id !in st.finishedSet && st.slots[id].item.id == id)
  }

  /** Every registration is live under one id or has left, once. */
  ghost predicate LeavesOnce(st: State) {
    && Distinct(st.left)
    && (forall r :: r in st.left ==> r < st.registered)
    && (forall id :: id in st.slots ==> st.slots[id].registration < st.registered
                                        && st.slots[id].registration !in st.left)
    && (forall a, b :: a in st.slots && b in st.slots && a != b ==>
        st.slots[a].registration != st.slots[b].registration)
  }

  /** Decisions reach raisers at most once, after the checks. */
  ghost predicate DeliversOnce(st: State) {
    && (forall i, j :: 0 <= i < j < |st.deliveries| ==> st.deliveries[i].registration != st.deliveries[j].registration)
    && (forall i :: 0 <= i < |st.deliveries| ==>
        DeliveryOk(st.deliveries[i]) && st.deliveries[i].registration in st.left)
  }

  ghost predicate DeliveryOk(x: Delivery) {
    && x.item.answerable && Validate(x.item, x.decision).None?
    && (x.decision.allow && IsDangerous(x.item, x.decision) ==> x.mayDangerous)
  }

  ghost predicate Inv(st: State) {
    Remembers(st) && LeavesOnce(st) && DeliversOnce(st)
  }

  lemma LeaveRemembers(st: State, id: string, outcome: Outcome)
    requires Remembers(st) && id in st.slots
    ensures Remembers(Leave(st, id, outcome))
  {
    var next := Leave(st, id, outcome);
    LastGrows(st.history, id);
    LastKeepsDistinct(st.finished + [id]);
    assert id == next.finished[|next.finished| - 1];
    LeaveRemembersExactly(st, id, outcome);
  }

  lemma LastGrows(history: seq<string>, id: string)
    ensures Last(history + [id], FINISHED_CAP) == Last(Last(history, FINISHED_CAP) + [id], FINISHED_CAP)
  {
  }

  lemma LastKeepsDistinct(history: seq<string>)
    requires Distinct(history)
    ensures Distinct(Last(history, FINISHED_CAP))
    ensures forall x :: x in Last(history, FINISHED_CAP) ==> x in history
  {
  }

  lemma LeaveRemembersExactly(st: State, id: string, outcome: Outcome)
    requires Remembers(st) && id in st.slots && id in Leave(st, id, outcome).finished
    requires forall x :: x in Leave(st, id, outcome).finished ==> x in st.finished + [id]
    ensures forall x :: x in Leave(st, id, outcome).finishedSet <==> x in Leave(st, id, outcome).finished
    ensures Leave(st, id, outcome).resolutions.Keys == Leave(st, id, outcome).finishedSet
  {
    assert forall x :: x in st.finished + [id] <==> x in st.finishedSet || x == id;
  }

  lemma LeaveLeavesOnce(st: State, id: string, outcome: Outcome)
    requires LeavesOnce(st) && id in st.slots
    ensures LeavesOnce(Leave(st, id, outcome))
    ensures st.slots[id].registration in Leave(st, id, outcome).left
    ensures forall r :: r in st.left ==> r in Leave(st, id, outcome).left
  {
    var r := st.slots[id].registration;
    assert (st.left + [r])[|st.left|] == r;
  }

  lemma EnterKeepsInv(st: State, item: Item)
    requires Inv(st) && item.id !in st.slots && item.id !in st.finishedSet
    ensures Inv(Enter(st, item))
  {
    var next := Enter(st, item);
    assert Remembers(next);
    assert LeavesOnce(next);
    assert DeliversOnce(next);
  }

  lemma LeaveKeepsInv(st: State, id: string, outcome: Outcome)
    requires Inv(st) && id in st.slots
    ensures Inv(Leave(st, id, outcome))
    ensures forall i :: 0 <= i < |st.deliveries| ==> st.deliveries[i].registration != st.slots[id].registration
    ensures st.slots[id].registration in Leave(st, id, outcome).left
  {
    LeaveRemembers(st, id, outcome);
    LeaveLeavesOnce(st, id, outcome);
    assert Leave(st, id, outcome).deliveries == st.deliveries;
  }

  lemma DeliverKeepsInv(st: State, x: Delivery)
    requires Inv(st) && DeliveryOk(x) && x.registration in st.left
    requires forall i :: 0 <= i < |st.deliveries| ==> st.deliveries[i].registration != x.registration
    ensures Inv(st.(deliveries := st.deliveries + [x]))
  {
    var next := st.(deliveries := st.deliveries + [x]);
    assert Remembers(next) && LeavesOnce(next);
  }

  lemma ResolveKeepsInv(st: State, id: string, d: Decision, mayDangerous: bool, receiving: bool)
    requires Inv(st)
    ensures Inv(Next(st, Resolve(id, d, mayDangerous, receiving)))
  {
    if Refused(st, id, d, mayDangerous).None? {
      var slot := st.slots[id];
      var outcome := if receiving then OutcomeOf(slot.item, d) else Cancelled;
      LeaveKeepsInv(st, id, outcome);
      if receiving {
        DeliverKeepsInv(Leave(st, id, outcome), Delivery(slot.registration, slot.item, d, mayDangerous));
      }
    }
  }

  lemma SetResolutionKeepsInv(st: State, r: Resolution)
    requires Inv(st)
    ensures Inv(Next(st, SetResolution(r)))
  {
    var next := Next(st, SetResolution(r));
    assert Remembers(next) && LeavesOnce(next) && DeliversOnce(next);
  }

  lemma StepKeepsInv(st: State, step: Step)
    requires Inv(st)
    ensures Inv(Next(st, step))
  {
    match step
    case Register(item, why, spare, now) =>
      if Fresh(st, spare) {
        EnterKeepsInv(st, Stored(st, item, why, spare, now));
      }
    case Resolve(id, d, mayDangerous, receiving) =>
      ResolveKeepsInv(st, id, d, mayDangerous, receiving);
    case Withdraw(id, outcome) =>
      if id in st.slots {
        LeaveKeepsInv(st, id, outcome);
      }
    case SetResolution(r) => SetResolutionKeepsInv(st, r);
  }

  lemma {:induction false} RunKeepsInv(st: State, steps: seq<Step>)
    requires Inv(st)
    ensures Inv(Run(st, steps))
    decreases steps
  {
    if steps != [] {
      StepKeepsInv(st, steps[0]);
      RunKeepsInv(Next(st, steps[0]), steps[1..]);
    }
  }

  /** Exactly once: in every run an item leaves at most once, its raiser gets at
      most one decision and only after it left, live and remembered ids stay
      apart, and remembered are exactly the last ids to finish, each with its
      resolution. */
  lemma PendingHistory(steps: seq<Step>)
    ensures var st := Run(EMPTY, steps);
      && Distinct(st.left)
      && (forall i, j :: 0 <= i < j < |st.deliveries| ==>
          st.deliveries[i].registration != st.deliveries[j].registration)
      && (forall i :: 0 <= i < |st.deliveries| ==>
          DeliveryOk(st.deliveries[i]) && st.deliveries[i].registration in st.left)
      && (forall id :: id in st.slots ==> id !in st.finishedSet && st.slots[id].registration !in st.left)
      && st.finished == Last(st.history, FINISHED_CAP) && Distinct(st.finished)
      && (forall id :: id in st.finishedSet <==> id in st.finished) && st.resolutions.Keys == st.finishedSet
  {
    RunKeepsInv(EMPTY, steps);
  }

  lemma LastHolds(history: seq<string>, n: nat, id: string)
    ensures id in Last(history, n) <==> exists p :: 0 <= p < |history| && history[p] == id && |history| - p <= n
  {
    var cut := |history| - |Last(history, n)|;
    assert forall i :: cut <= i < |history| ==> Last(history, n)[i - cut] == history[i];
    assert forall i :: 0 <= i < |Last(history, n)| ==> Last(history, n)[i] == history[cut + i];
  }

  /** An id is remembered until exactly 2048 further items have finished; while
      it is, an answer is `AlreadyDecided` and the id cannot be registered
      again. */
  lemma RememberedExactly(steps: seq<Step>, id: string, d: Decision, mayDangerous: bool, item: Item,
                          why: Option<string>, spare: string, now: int)
    requires id !in Run(EMPTY, steps).slots && item.id == id && spare != id
    ensures var st := Run(EMPTY, steps);
      && (Refused(st, id, d, mayDangerous) == Some(AlreadyDecided) <==>
          exists p :: 0 <= p < |st.history| && st.history[p] == id && |st.history| - p <= FINISHED_CAP)
      && (Refused(st, id, d, mayDangerous) == Some(AlreadyDecided) ==> Stored(st, item, why, spare, now).id != id)
      && (Refused(st, id, d, mayDangerous) != Some(AlreadyDecided) ==>
          Refused(st, id, d, mayDangerous) == Some(NotFound))
  {
    RunKeepsInv(EMPTY, steps);
    LastHolds(Run(EMPTY, steps).history, FINISHED_CAP, id);
  }

  /** A decision whose permission result carries a standing update reached its
      raiser only from a caller with the dangerous right. The raiser builds the
      result from the item it raised, before the store classified it. */
  lemma StandingGrantsNeedTheRight(steps: seq<Step>, i: nat, update: Value)
    requires i < |Run(EMPTY, steps).deliveries|
    requires var x := Run(EMPTY, steps).deliveries[i]; update in Granted(x.item, x.decision) && IsStanding(update)
    ensures Run(EMPTY, steps).deliveries[i].mayDangerous
  {
    RunKeepsInv(EMPTY, steps);
    var x := Run(EMPTY, steps).deliveries[i];
    assert DeliveryOk(x);
    StandingGrantsAreDangerous(x.item, x.decision, update);
  }

  /** Storing an item changes nothing a result is built from. */
  lemma StoringKeepsGrants(st: State, item: Item, why: Option<string>, spare: string, now: int, d: Decision)
    ensures Granted(Stored(st, item, why, spare, now), d) == Granted(item, d)
    ensures IsDangerous(item, d) ==> IsDangerous(Stored(st, item, why, spare, now), d)
  {
  }

  function Members(s: seq<string>): set<string> {
    set x | x in s
  }

  lemma DroppedAre(finished: seq<string>, id: string, k: nat)
    requires Distinct(finished) && id !in finished && k <= |finished|
    ensures Members((finished + [id])[..k]) == set x | x in finished && x !in (finished + [id])[k..]
  {
    var all := finished + [id];
    assert Distinct(all);
    forall x
      ensures x in all[..k] <==> x in finished && x !in all[k..]
    {
      if i :| 0 <= i < k && all[..k][i] == x {
        assert finished[i] == x;
        assert forall j :: 0 <= j < |all[k..]| ==> all[k..][j] == all[k + j] != x;
      }
      if i :| 0 <= i < |finished| && finished[i] == x && x !in all[k..] {
        assert forall j :: k <= j < |all| ==> all[k..][j - k] == all[j];
        assert all[i] == x && i < k;
        assert all[..k][i] == x;
      }
    }
  }

  class PendingStore {
    var slots: map<string, Slot>
    var finished: seq<string>
    var finishedSet: set<string>
    var resolutions: map<string, Resolution>
    ghost var history: seq<string>
    var registered: nat
    ghost var left: seq<nat>
    ghost var deliveries: seq<Delivery>

    ghost function View(): State
      reads this
    {
      State(slots, finished, finishedSet, resolutions, history, registered, left, deliveries)
    }

    ghost predicate Valid()
      reads this
    {
      Inv(View())
    }

    constructor ()
      ensures Valid() && View() == EMPTY
    {
      slots, finished, finishedSet, resolutions, registered := map[], [], {}, map[], 0;
      history, left, deliveries := [], [], [];
    }

    method RegisterItem(item: Item, why: Option<string>, spare: string, now: int) returns (id: string)
      requires Valid() && Fresh(View(), spare)
      modifies this
      ensures Valid() && View() == Next(old(View()), Register(item, why, spare, now))
      ensures id !in old(slots) && id !in old(finishedSet) && id in slots && slots[id].registration == old(registered)
    {
      ghost var before := View();
      ghost var next := Next(before, Register(item, why, spare, now));
      StepKeepsInv(before, Register(item, why, spare, now));
      var stored := item;
      if !item.dangerous || item.reason.None? {
        if why.Some? {
          stored := stored.(dangerous := true, reason := if item.reason.Some? then item.reason else why);
        }
      }
      if item.id == "" || item.id in slots || item.id in finishedSet {
        stored := stored.(id := spare);
      }
      if stored.createdAt == 0 {
        stored := stored.(createdAt := now);
      }
      stored := stored.(answerable := item.source != Observed);
      assert stored == Stored(before, item, why, spare, now);
      assert next == Enter(before, stored);
      id := stored.id;
      Insert(stored);
    }

    method Insert(item: Item)
      modifies this`slots, this`registered
      ensures View() == Enter(old(View()), item)
    {
      slots := slots[item.id := Slot(item, registered)];
      registered := registered + 1;
    }

    /** Remember a finished id, forgetting the oldest beyond the cap. */
    method Finish(id: string)
      requires Distinct(finished) && |finished| <= FINISHED_CAP && id !in finished && id !in finishedSet
      modifies this`finished, this`finishedSet, this`resolutions
      ensures finished == Last(old(finished) + [id], FINISHED_CAP)
      ensures var dropped := set x | x in old(finished) && x !in finished;
        finishedSet == (old(finishedSet) + {id}) - dropped && resolutions == old(resolutions) - dropped
    {
      finishedSet := finishedSet + {id};
      finished := finished + [id];
      ghost var all := finished;
      ghost var k := 0;
      while |finished| > FINISHED_CAP
        invariant k <= |all| && finished == all[k..] && (k > 0 ==> |finished| >= FINISHED_CAP)
        invariant finishedSet == (old(finishedSet) + {id}) - Members(all[..k])
        invariant resolutions == old(resolutions) - Members(all[..k])
        decreases |finished|
      {
        var oldest := finished[0];
        assert all[..k + 1] == all[..k] + [oldest];
        finished := finished[1..];
        finishedSet := finishedSet - {oldest};
        resolutions := resolutions - {oldest};
        k := k + 1;
      }
      DroppedAre(old(finished), id, k);
    }

    /** Answer an item on behalf of a caller. */
    method ResolveItem(id: string, d: Decision, mayDangerous: bool, receiving: bool)
      returns (r: Result<Item, RespondError>)
      requires Valid()
      modifies this
      ensures Valid() && View() == Next(old(View()), Resolve(id, d, mayDangerous, receiving))
      ensures Refused(old(View()), id, d, mayDangerous).Some? ==>
        r == Err(Refused(old(View()), id, d, mayDangerous).value)
      ensures Refused(old(View()), id, d, mayDangerous).None? ==>
        r == if receiving then Ok(old(slots)[id].item) else Err(AlreadyDecided)
    {
      StepKeepsInv(View(), Resolve(id, d, mayDangerous, receiving));
      if id !in slots {
        return Err(if id in finishedSet then AlreadyDecided else NotFound);
      }
      var slot := slots[id];
      if !slot.item.answerable {
        return Err(NotAnswerable);
      }
      var refusal := Validate(slot.item, d);
      if refusal.Some? {
        return Err(Invalid(refusal.value));
      }
      if d.allow && IsDangerous(slot.item, d) && !mayDangerous {
        return Err(Forbidden);
      }
      RemoveItem(id, if receiving then OutcomeOf(slot.item, d) else Cancelled);
      if !receiving {
        return Err(AlreadyDecided);
      }
      deliveries := deliveries + [Delivery(slot.registration, slot.item, d, mayDangerous)];
      r := Ok(slot.item);
    }

    method RemoveItem(id: string, outcome: Outcome)
      requires Remembers(View()) && id in slots
      modifies this
      ensures View() == Leave(old(View()), id, outcome)
    {
      var slot := slots[id];
      Finish(id);
      slots := slots - {id};
      history, left := history + [id], left + [slot.registration];
      resolutions := resolutions[id := Resolution(id, slot.item.session, outcome, None)];
    }

    method WithdrawItem(id: string, outcome: Outcome) returns (item: Option<Item>)
      requires Valid()
      modifies this
      ensures Valid() && View() == Next(old(View()), Withdraw(id, outcome))
      ensures item == if id in old(slots) then Some(old(slots)[id].item) else None
    {
      StepKeepsInv(View(), Withdraw(id, outcome));
      if id !in slots {
        return None;
      }
      item := Some(slots[id].item);
      RemoveItem(id, outcome);
    }

    method ReplaceResolution(r: Resolution)
      requires Valid()
      modifies this`resolutions
      ensures Valid() && View() == Next(old(View()), SetResolution(r))
    {
      ghost var next := Next(View(), SetResolution(r));
      StepKeepsInv(View(), SetResolution(r));
      if r.id in finishedSet {
        resolutions := resolutions[r.id := r];
      }
      assert View() == next;
    }
  }
}
