/**
 The bounded replay log behind every event stream
 (src-tauri/src/bridge/events.rs).

 The log keeps a window of the events appended so far. `Retain` is the window
 as a function of the whole history; the class below evicts event by event and
 is proved to hold exactly that window.
 */
module EventLogs {
  import opened Frames
  import opened Wrappers

  /** One retained event: its sequence number and its payload. */
  datatype Event = Event(id: nat, data: Payload)

  datatype Limits = Limits(maxEvents: nat, maxBytes: nat)

  /** The bytes `events` hold. */
  function Size(events: seq<Event>): nat {
    if events == [] then 0 else events[0].data.length + Size(events[1..])
  }

  ghost predicate Fits(limits: Limits, events: seq<Event>) {
    |events| <= limits.maxEvents && Size(events) <= limits.maxBytes
  }

  /** A history with the sequence numbers the log gives it: 1, 2, 3, … */
  ghost function Numbered(history: seq<Payload>): (r: seq<Event>)
    ensures |r| == |history|
    ensures forall i :: 0 <= i < |r| ==> r[i] == Event(i + 1, history[i])
  {
    seq(|history|, i requires 0 <= i < |history| => Event(i + 1, history[i]))
  }

  /** What is kept of `events`: drop from the front while more than one is left
      and they do not fit. */
  ghost function Retain(limits: Limits, events: seq<Event>): seq<Event> {
    if |events| <= 1 || Fits(limits, events) then events else Retain(limits, events[1..])
  }

  lemma {:induction false} SizeOfConcat(a: seq<Event>, b: seq<Event>)
    ensures Size(a + b) == Size(a) + Size(b)
  {
    if a == [] {
      assert a + b == b;
    } else {
      SizeOfConcat(a[1..], b);
      assert (a + b)[1..] == a[1..] + b;
    }
  }

  /** `Retain` is the longest suffix that fits, or the last event alone when
      even that does not. */
  lemma {:induction false} RetainIsLongestFittingSuffix(limits: Limits, events: seq<Event>) returns (k: nat)
    ensures k <= |events| && Retain(limits, events) == events[k..]
    ensures Fits(limits, events[k..]) || |events[k..]| <= 1
    ensures events != [] ==> k < |events|
    ensures forall j :: 0 <= j < k ==> !Fits(limits, events[j..])
  {
    if |events| <= 1 || Fits(limits, events) {
      k := 0;
    } else {
      var rest := RetainIsLongestFittingSuffix(limits, events[1..]);
      k := rest + 1;
      assert events[k..] == events[1..][rest..];
      forall j | 0 <= j < k ensures !Fits(limits, events[j..]) {
        if j == 0 {
          assert events[0..] == events;
        } else {
          assert events[1..][j - 1..] == events[j..];
        }
      }
    }
  }

  /** Evicting as events arrive keeps the same window as evicting once, at the
      end, from the whole history. */
  lemma {:induction false} RetainAbsorbs(limits: Limits, events: seq<Event>, e: Event)
    ensures Retain(limits, Retain(limits, events) + [e]) == Retain(limits, events + [e])
  {
    if |events| > 1 && !Fits(limits, events) {
      SizeOfConcat(events, [e]);
      assert (events + [e])[1..] == events[1..] + [e];
      RetainAbsorbs(limits, events[1..], e);
    }
  }

  lemma NumberedAppend(history: seq<Payload>, data: Payload)
    ensures Numbered(history + [data]) == Numbered(history) + [Event(|history| + 1, data)]
  {
  }

  // ------------------------------------------------------------ the cursor contract

  /** What a reader can see of the log under its lock. */
  datatype View = View(events: seq<Event>, sequence: nat, closed: bool)

  datatype CursorError = InvalidCursor(newest: nat) | EventsExpired(oldest: nat, requested: nat)

  datatype Batch = Batch(events: seq<Event>, closed: bool)

  function CheckCursor(v: View, after: nat): Option<CursorError> {
    if after > v.sequence then Some(InvalidCursor(v.sequence))
    else if v.events != [] && after + 1 < v.events[0].id then Some(EventsExpired(v.events[0].id, after))
    else None
  }

  /** The retained events newer than `after`. */
  function Newer(events: seq<Event>, after: nat): seq<Event> {
    if events == [] then []
    else (if events[0].id > after then [events[0]] else []) + Newer(events[1..], after)
  }

  /** The first look of a read: an answer at once, or `None` to wait. */
  function Look(v: View, after: nat): Option<Result<Batch, CursorError>> {
    var err := CheckCursor(v, after);
    if err.Some? then Some(Err(err.value))
    else
      var batch := Newer(v.events, after);
      if batch != [] || v.closed then Some(Ok(Batch(batch, v.closed))) else None
  }

  /** The last look of a read whose wait ran out: it re-checks the cursor but
      answers an empty batch whatever the log holds. */
  function TimedOut(v: View, after: nat): Result<Batch, CursorError> {
    var err := CheckCursor(v, after);
    if err.Some? then Err(err.value) else Ok(Batch([], v.closed))
  }

  /** The view of a log with this history. */
  ghost function ViewOf(limits: Limits, history: seq<Payload>, closed: bool): View {
    View(Retain(limits, Numbered(history)), |history|, closed)
  }

  /** The event after cursor `after` was appended and is no longer retained. */
  ghost predicate Evicted(limits: Limits, history: seq<Payload>, after: nat) {
    after < |history| && Numbered(history)[after] !in Retain(limits, Numbered(history))
  }

  lemma {:induction false} NewerOfRun(events: seq<Event>, first: nat, after: nat)
    requires forall i :: 0 <= i < |events| ==> events[i].id == first + i
    ensures Newer(events, after) ==
            if after < first then events
            else if after - first + 1 <= |events| then events[after - first + 1..] else []
  {
    if events != [] {
      NewerOfRun(events[1..], first + 1, after);
    }
  }

  /** The window starts after `k` evicted events, which are exactly the
      evicted ones. */
  lemma WindowStart(limits: Limits, history: seq<Payload>) returns (k: nat)
    ensures k <= |history| && Retain(limits, Numbered(history)) == Numbered(history)[k..]
    ensures history != [] ==> k < |history|
    ensures forall after: nat :: Evicted(limits, history, after) <==> after < k
  {
    var all := Numbered(history);
    k := RetainIsLongestFittingSuffix(limits, all);
    forall after | 0 <= after < |history|
      ensures all[after] in all[k..] <==> k <= after
    {
      if k <= after {
        assert all[k..][after - k] == all[after];
      }
    }
  }

  lemma NewerFrom(all: seq<Event>, k: nat, after: nat)
    requires k <= after <= |all|
    requires forall i :: 0 <= i < |all| ==> all[i].id == i + 1
    ensures Newer(all[k..], after) == all[after..]
  {
    NewerOfRun(all[k..], k + 1, after);
    if after < |all| {
      assert all[k..][after - k..] == all[after..];
    }
  }

  /** The contract for a window that starts after `k` events. */
  lemma ContractOfWindow(all: seq<Event>, k: nat, closed: bool, after: nat)
    requires k <= |all| && (all != [] ==> k < |all|)
    requires forall i :: 0 <= i < |all| ==> all[i].id == i + 1
    ensures var v := View(all[k..], |all|, closed);
            var err := CheckCursor(v, after);
            && (err.Some? && err.value.InvalidCursor? <==> after > |all|)
            && (err.Some? && err.value.EventsExpired? <==> after < k)
            && (after > |all| ==> err == Some(InvalidCursor(|all|)))
            && (after < k ==> err == Some(EventsExpired(k + 1, after)))
            && (err.None? ==> (after <= |all| && Newer(v.events, after) == all[after..]))
  {
    var kept := all[k..];
    if kept != [] {
      assert kept[0] == all[k];
    }
    if k <= after <= |all| {
      NewerFrom(all, k, after);
    }
  }

  /** 422 exactly when the cursor is ahead, 410 exactly when the next event was
      evicted, otherwise exactly the history after the cursor. A 422 names the
      newest event, a 410 the cursor asked for and the oldest event retained, the
      first that was not evicted. */
  lemma CursorContract(limits: Limits, history: seq<Payload>, closed: bool, after: nat)
    ensures var err := CheckCursor(ViewOf(limits, history, closed), after);
            && (err.Some? && err.value.InvalidCursor? <==> after > |history|)
            && (err.Some? && err.value.EventsExpired? <==> Evicted(limits, history, after))
            && (err.Some? && err.value.InvalidCursor? ==> err.value.newest == |history|)
            && (err.Some? && err.value.EventsExpired? ==>
                  && err.value.requested == after && err.value.oldest >= 2
                  && Evicted(limits, history, err.value.oldest - 2)
                  && !Evicted(limits, history, err.value.oldest - 1))
            && (err.None? ==> (after <= |history| &&
                  Newer(ViewOf(limits, history, closed).events, after) == Numbered(history)[after..]))
  {
    var k := WindowStart(limits, history);
    ContractOfWindow(Numbered(history), k, closed, after);
  }

  /** Nothing is left to read after the newest event, in any window. */
  lemma NothingAfterTheHead(limits: Limits, history: seq<Payload>, closed: bool)
    ensures Look(ViewOf(limits, history, closed), |history|)
            == if closed then Some(Ok(Batch([], true))) else None
  {
    CursorContract(limits, history, closed, |history|);
  }

  method CollectNewer(events: seq<Event>, after: nat) returns (batch: seq<Event>)
    ensures batch == Newer(events, after)
  {
    batch := [];
    for i := 0 to |events|
      invariant batch + Newer(events[i..], after) == Newer(events, after)
    {
      NewerOfFirst(events, after, i, batch);
      if events[i].id > after {
        batch := batch + [events[i]];
      }
    }
    assert events[|events|..] == [];
  }

  lemma NewerOfFirst(events: seq<Event>, after: nat, i: nat, batch: seq<Event>)
    requires i < |events|
    ensures batch + Newer(events[i..], after)
         == (if events[i].id > after then batch + [events[i]] else batch) + Newer(events[i + 1..], after)
  {
    assert events[i..][1..] == events[i + 1..];
  }

  class EventLog {
    const limits: Limits
    var events: seq<Event>
    var bytes: nat
    var sequence: nat
    var closed: bool
    /** How often the wake-up channel was bumped. */
    var bumps: nat
    /** Every payload ever appended. */
    ghost var history: seq<Payload>

    ghost predicate Valid()
      reads this
    {
      && sequence == |history|
      && events == Retain(limits, Numbered(history))
      && bytes == Size(events)
    }

    constructor (limits: Limits)
      ensures Valid() && this.limits == limits
      ensures history == [] && !closed && bumps == 0
    {
      this.limits := limits;
      events, bytes, sequence, closed, bumps := [], 0, 0, false, 0;
      history := [];
    }

    method AppendRaw(data: Payload) returns (id: Option<nat>)
      requires Valid()
      modifies this
      ensures Valid() && closed == old(closed)
      ensures old(closed) ==> id == None && history == old(history) && bumps == old(bumps)
      ensures !old(closed) ==> id == Some(|history|) && history == old(history) + [data] && bumps == old(bumps) + 1
    {
      if closed {
        return None;
      }
      sequence := sequence + 1;
      var e := Event(sequence, data);
      bytes := bytes + data.length;
      events := events + [e];
      SizeOfConcat(old(events), [e]);
      ghost var grown := events;
      while |events| > 1 && (|events| > limits.maxEvents || bytes > limits.maxBytes)
        invariant bytes == Size(events)
        invariant Retain(limits, events) == Retain(limits, grown)
        invariant unchanged(`closed) && unchanged(`history) && unchanged(`bumps)
        invariant sequence == old(sequence) + 1
        decreases |events|
      {
        var dropped := events[0];
        events := events[1..];
        bytes := bytes - dropped.data.length;
      }
      history := history + [data];
      RetainAbsorbs(limits, Numbered(old(history)), e);
      NumberedAppend(old(history), data);
      bumps := bumps + 1;
      id := Some(sequence);
    }

    method Close()
      requires Valid()
      modifies this`closed, this`bumps
      ensures Valid() && closed
      ensures bumps == if old(closed) then old(bumps) else old(bumps) + 1
    {
      if !closed {
        closed := true;
        bumps := bumps + 1;
      }
    }

    /** Where a new subscriber starts: never refused, and given everything
        still retained. */
    method OldestCursor() returns (after: nat)
      requires Valid()
      ensures CheckCursor(View(events, sequence, closed), after) == None
      ensures Newer(events, after) == events
      ensures forall c | 0 <= c < after :: CheckCursor(View(events, sequence, closed), c).Some?
    {
      ghost var all := Numbered(history);
      ghost var k := RetainIsLongestFittingSuffix(limits, all);
      assert events == all[k..];
      NewerOfRun(events, k + 1, k);
      if events != [] {
        after := events[0].id - 1;
      } else {
        after := sequence;
      }
    }

    /** The look of a read under the lock. */
    method ReadNow(after: nat) returns (r: Option<Result<Batch, CursorError>>)
      requires Valid()
      ensures r == Look(ViewOf(limits, history, closed), after)
      ensures after > |history| <==> r.Some? && r.value.Err? && r.value.error.InvalidCursor?
      ensures Evicted(limits, history, after) <==> r.Some? && r.value.Err? && r.value.error.EventsExpired?
      ensures after > |history| ==> r.value.error.newest == |history|
      ensures Evicted(limits, history, after) ==>
        && r.value.error.requested == after && r.value.error.oldest >= 2
        && Evicted(limits, history, r.value.error.oldest - 2) && !Evicted(limits, history, r.value.error.oldest - 1)
      ensures r.Some? && r.value.Ok? ==> r.value.value == Batch(Numbered(history)[after..], closed)
      ensures r.None? <==> after == |history| && !closed
    {
      CursorContract(limits, history, closed, after);
      if after > sequence {
        return Some(Err(InvalidCursor(sequence)));
      }
      if events != [] && after + 1 < events[0].id {
        return Some(Err(EventsExpired(events[0].id, after)));
      }
      var batch := CollectNewer(events, after);
      if batch != [] || closed {
        return Some(Ok(Batch(batch, closed)));
      }
      return None;
    }
  }
}
