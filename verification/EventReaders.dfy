/**
 Readers of an event log over whole runs: a client that resumes from the last
 event it got, and the wake-up of readers that wait.
 */
module ResumingClients {
  import opened Frames
  import opened Wrappers
  import opened EventLogs

  /** A `Waiting` read has looked and found nothing. `Refused` is a 422, `Gone` a
      410, `Ended` a stream the server finished. */
  datatype Status = Reading | Waiting | Refused | Gone | Ended

  datatype Client = Client(cursor: nat, received: seq<Event>, status: Status)

  predicate Live(c: Client) {
    c.status == Reading || c.status == Waiting
  }

  ghost predicate CursorAccepted(limits: Limits, st: State) {
    CheckCursor(ViewOf(limits, st.history, st.closed), st.client.cursor) == None
  }

  datatype State = State(history: seq<Payload>, closed: bool, client: Client)

  /** Anything may be appended and the log closed between two looks; a look
      answers the read or leaves it waiting, and a wait may run out. */
  datatype Step = Append(data: Payload) | Close | Read | ReadTimedOut

  /** What the stream does with one answer: it resumes after the last event,
      and ends on a closed log with nothing left in the batch. */
  function Receive(c: Client, answer: Result<Batch, CursorError>): Client {
    match answer
    case Err(InvalidCursor(_)) => c.(status := Refused)
    case Err(EventsExpired(_, _)) => c.(status := Gone)
    case Ok(Batch(events, closed)) =>
      if events == [] then c.(status := if closed then Ended else Reading)
      else c.(cursor := events[|events| - 1].id, received := c.received + events, status := Reading)
  }

  ghost function Next(limits: Limits, st: State, step: Step): State {
    match step
    case Append(data) => if st.closed then st else st.(history := st.history + [data])
    case Close => st.(closed := true)
    case Read =>
      if !Live(st.client) then st
      else
        var answer := Look(ViewOf(limits, st.history, st.closed), st.client.cursor);
        st.(client := if answer.None? then st.client.(status := Waiting) else Receive(st.client, answer.value))
    case ReadTimedOut =>
      if st.client.status != Waiting then st
      else st.(client := Receive(st.client, TimedOut(ViewOf(limits, st.history, st.closed), st.client.cursor)))
  }

  ghost function Run(limits: Limits, st: State, steps: seq<Step>): State
    decreases steps
  {
    if steps == [] then st else Run(limits, Next(limits, st, steps[0]), steps[1..])
  }

  /** A wait runs out before it is woken, on a log that meanwhile got events for
      this client and was closed: the answer says closed and carries nothing, so
      the stream ends. */
  ghost predicate CutsOff(limits: Limits, st: State, step: Step) {
    && step == ReadTimedOut && st.client.status == Waiting && st.closed
    && st.client.cursor < |st.history| && CursorAccepted(limits, st)
  }

  ghost predicate NeverCutOff(limits: Limits, st: State, steps: seq<Step>)
    decreases steps
  {
    steps == [] ||
    (!CutsOff(limits, st, steps[0]) && NeverCutOff(limits, Next(limits, st, steps[0]), steps[1..]))
  }

  /** The client holds exactly the history from `start` to its cursor. */
  ghost predicate Exact(st: State, start: nat) {
    && start <= st.client.cursor <= |st.history|
    && st.client.received == Numbered(st.history)[start..st.client.cursor]
    && st.client.status != Refused
    && (st.client.status == Ended ==> st.closed)
  }

  lemma LongerHistorySameEvents(history: seq<Payload>, data: Payload, start: nat, end: nat)
    requires start <= end <= |history|
    ensures Numbered(history + [data])[start..end] == Numbered(history)[start..end]
  {
  }

  lemma AnswerKeepsExact(st: State, events: seq<Event>, start: nat)
    requires Exact(st, start) && Live(st.client)
    requires events == [] || events == Numbered(st.history)[st.client.cursor..]
    ensures Exact(st.(client := Receive(st.client, Ok(Batch(events, st.closed)))), start)
  {
    var all, c := Numbered(st.history), st.client.cursor;
    if events != [] {
      assert all[start..c] + all[c..] == all[start..|all|];
      assert events[|events| - 1] == all[|all| - 1];
    }
  }

  lemma ReadKeepsExact(limits: Limits, st: State, step: Step, start: nat)
    requires Exact(st, start) && (step == Read || step == ReadTimedOut)
    ensures Exact(Next(limits, st, step), start)
  {
    if Live(st.client) {
      CursorContract(limits, st.history, st.closed, st.client.cursor);
      AnswerKeepsExact(st, [], start);
      AnswerKeepsExact(st, Numbered(st.history)[st.client.cursor..], start);
    }
  }

  lemma ReadAdvances(limits: Limits, st: State, step: Step, start: nat)
    requires Exact(st, start) && Live(st.client)
    requires step == Read || (step == ReadTimedOut && st.client.status == Waiting)
    ensures var next, c := Next(limits, st, step).client, st.client.cursor;
      && (!Evicted(limits, st.history, c) && step == Read ==> next.cursor == |st.history|)
      && (next.status == Gone <==> Evicted(limits, st.history, c))
      && (next.status == Ended ==> (c == |st.history| <==> !CutsOff(limits, st, step)))
  {
    CursorContract(limits, st.history, st.closed, st.client.cursor);
  }

  lemma StepKeepsExact(limits: Limits, st: State, step: Step, start: nat)
    requires Exact(st, start)
    ensures Exact(Next(limits, st, step), start)
  {
    match step
    case Append(data) => LongerHistorySameEvents(st.history, data, start, st.client.cursor);
    case Close =>
    case Read => ReadKeepsExact(limits, st, step, start);
    case ReadTimedOut => ReadKeepsExact(limits, st, step, start);
  }

  /** Resumable reading: whatever is appended and closed in between, a client
      that started at an accepted cursor holds exactly the history from there to
      its cursor — no gap, no duplicate — and is never told 422. */
  lemma {:induction false} ResumedReadingIsExact(limits: Limits, st: State, steps: seq<Step>, start: nat)
    requires Exact(st, start)
    ensures Exact(Run(limits, st, steps), start)
    decreases steps
  {
    if steps != [] {
      StepKeepsExact(limits, st, steps[0], start);
      ResumedReadingIsExact(limits, Next(limits, st, steps[0]), steps[1..], start);
    }
  }

  /** The start of such a run. */
  lemma AcceptedStartIsExact(limits: Limits, history: seq<Payload>, closed: bool, start: nat)
    requires CheckCursor(ViewOf(limits, history, closed), start) == None
    ensures Exact(State(history, closed, Client(start, [], Reading)), start)
  {
    CursorContract(limits, history, closed, start);
  }

  /** Once the log is closed a client whose next event is retained reads
      everything in one look and is finished by the next. */
  lemma TwoLooksReachTheEnd(limits: Limits, st: State, start: nat)
    requires Exact(st, start) && st.closed && Live(st.client)
    requires !Evicted(limits, st.history, st.client.cursor)
    ensures var end := Run(limits, st, [Read, Read]);
            end.client.status == Ended && end.client.received == Numbered(st.history)[start..]
  {
    ReadKeepsExact(limits, st, Read, start);
    ReadAdvances(limits, st, Read, start);
    var mid := Next(limits, st, Read);
    CursorContract(limits, st.history, st.closed, st.client.cursor);
    ReadKeepsExact(limits, mid, Read, start);
    NothingAfterTheHead(limits, st.history, true);
    var end := Next(limits, mid, Read);
    assert Run(limits, st, [Read, Read]) == end by {
      assert [Read, Read][1..] == [Read];
      assert Run(limits, mid, [Read]) == Run(limits, end, []);
    }
    var all := Numbered(st.history);
    assert |all| == |st.history| && all[start..|all|] == all[start..];
  }

  lemma {:induction false} FinishedClientsStay(limits: Limits, st: State, steps: seq<Step>)
    requires !Live(st.client) && st.closed
    ensures Run(limits, st, steps) == st
    ensures NeverCutOff(limits, st, steps)
  {
    if steps != [] {
      FinishedClientsStay(limits, st, steps[1..]);
    }
  }

  /** A stream that ended delivered everything if and only if it was not cut
      off by a wait that ran out. */
  lemma {:induction false} EndedMeansCompleteUnlessCutOff(limits: Limits, st: State, steps: seq<Step>, start: nat)
    requires Exact(st, start) && Live(st.client)
    requires Run(limits, st, steps).client.status == Ended
    ensures Exact(Run(limits, st, steps), start)
    ensures NeverCutOff(limits, st, steps) <==>
            Run(limits, st, steps).client.received == Numbered(Run(limits, st, steps).history)[start..]
    decreases steps
  {
    ResumedReadingIsExact(limits, st, steps, start);
    if steps != [] {
      var next := Next(limits, st, steps[0]);
      StepKeepsExact(limits, st, steps[0], start);
      if Live(next.client) {
        if CutsOff(limits, st, steps[0]) {
          assert false;
        }
        EndedMeansCompleteUnlessCutOff(limits, next, steps[1..], start);
      } else {
        ReadKeepsExact(limits, st, steps[0], start);
        ReadAdvances(limits, st, steps[0], start);
        NonReadingStatusStays(limits, next, steps[1..]);
        FinishedClientsStay(limits, next, steps[1..]);
        assert |Numbered(next.history)[start..]| == |next.history| - start;
        assert Numbered(next.history)[start..|next.history|] == Numbered(next.history)[start..];
      }
    }
  }

  lemma {:induction false} NonReadingStatusStays(limits: Limits, st: State, steps: seq<Step>)
    requires !Live(st.client)
    ensures Run(limits, st, steps).client == st.client
    decreases steps
  {
    if steps != [] {
      NonReadingStatusStays(limits, Next(limits, st, steps[0]), steps[1..]);
    }
  }

  /** The code does end a stream early: a read waits, the last event is appended,
      the log closed, and the wait that had just run out answers "closed, nothing
      new". */
  lemma ALateFrameCanBeCutOff(limits: Limits, frame: Payload)
    ensures var st := State([], false, Client(0, [], Reading));
            var end := Run(limits, st, [Read, Append(frame), Close, ReadTimedOut]);
            end.client == Client(0, [], Ended) && Numbered(end.history) == [Event(1, frame)]
  {
    var st := State([], false, Client(0, [], Reading));
    NothingAfterTheHead(limits, [], false);
    var waiting := Next(limits, st, Read);
    assert waiting == State([], false, Client(0, [], Waiting));
    assert [Read, Append(frame), Close, ReadTimedOut][1..] == [Append(frame), Close, ReadTimedOut];
    OnlyEventIsRetained(limits, frame);
    assert [] + [frame] == [frame];
    RunOfThree(limits, waiting, Append(frame), Close, ReadTimedOut);
  }

  lemma OnlyEventIsRetained(limits: Limits, frame: Payload)
    ensures TimedOut(ViewOf(limits, [frame], true), 0) == Ok(Batch([], true))
    ensures Numbered([frame]) == [Event(1, frame)]
  {
    assert Retain(limits, Numbered([frame])) == Numbered([frame]);
  }

  lemma RunOfThree(limits: Limits, st: State, a: Step, b: Step, c: Step)
    ensures Run(limits, st, [a, b, c]) == Next(limits, Next(limits, Next(limits, st, a), b), c)
  {
    var sa := Next(limits, st, a);
    var sb := Next(limits, sa, b);
    assert [a, b, c][1..] == [b, c] && [b, c][1..] == [c] && [c][1..] == [];
    assert Run(limits, sb, [c]) == Run(limits, Next(limits, sb, c), []);
    assert Run(limits, sa, [b, c]) == Run(limits, sb, [c]);
  }
}

/**
 Waiting readers. An append or close changes the log under its lock and bumps
 the wake-up channel after releasing it; readers subscribe before their first
 look, and wait for the version to differ from the one they last saw.
 */
module ReaderWakeups {
  import opened Frames
  import opened EventLogs

  type ReaderId = nat

  /** `seen` is the channel version the reader has observed. */
  datatype Reader = Looking(after: nat, seen: nat) | Parked(after: nat, seen: nat) | Expiring(after: nat)

  datatype State = State(
    history: seq<Payload>,
    closed: bool,
    version: nat,
    /** Appends that released the lock and have not bumped the channel yet. */
    unsent: nat,
    /** The same for the one effective close. */
    closeUnsent: bool,
    readers: map<ReaderId, Reader>)

  datatype Step =
    | Append(data: Payload)
    | SendAppended
    | Close
    | SendClosed
    | Subscribe(id: ReaderId, after: nat)
    | LookOnce(id: ReaderId)
    | Wake(id: ReaderId)
    | GiveUp(id: ReaderId)
    | Leave(id: ReaderId)

  ghost function Next(limits: Limits, st: State, step: Step): State {
    match step
    case Append(data) =>
      if st.closed then st else st.(history := st.history + [data], unsent := st.unsent + 1)
    case SendAppended =>
      // The channel refuses a value while nobody is subscribed.
      if st.unsent == 0 then st
      else st.(unsent := st.unsent - 1, version := if st.readers == map[] then st.version else st.version + 1)
    case Close => if st.closed then st else st.(closed := true, closeUnsent := true)
    case SendClosed =>
      if !st.closeUnsent then st else st.(closeUnsent := false, version := st.version + 1)
    case Subscribe(id, after) =>
      if id in st.readers then st else st.(readers := st.readers[id := Looking(after, st.version)])
    case LookOnce(id) =>
      if id !in st.readers || !st.readers[id].Looking? then st
      else
        var r := st.readers[id];
        if Look(ViewOf(limits, st.history, st.closed), r.after).Some? then st.(readers := st.readers - {id})
        else st.(readers := st.readers[id := Parked(r.after, r.seen)])
    case Wake(id) =>
      if id !in st.readers || !st.readers[id].Parked? || st.readers[id].seen == st.version then st
      else st.(readers := st.readers[id := Looking(st.readers[id].after, st.version)])
    case GiveUp(id) =>
      if id !in st.readers || !st.readers[id].Parked? then st
      else st.(readers := st.readers[id := Expiring(st.readers[id].after)])
    case Leave(id) => st.(readers := st.readers - {id})
  }

  ghost function Run(limits: Limits, st: State, steps: seq<Step>): State
    decreases steps
  {
    if steps == [] then st else Run(limits, Next(limits, st, steps[0]), steps[1..])
  }

  ghost predicate Something(st: State, after: nat) {
    st.closed || after != |st.history|
  }

  /** A parked reader with something to read has a bump to observe: one it has
      not seen yet, or one still to be sent. */
  ghost predicate Covered(st: State, r: Reader) {
    r.Expiring? || (r.seen <= st.version &&
      (r.Parked? && Something(st, r.after) ==> r.seen < st.version || st.unsent > 0 || st.closeUnsent))
  }

  ghost predicate NoLostWakeup(st: State) {
    && forall id :: id in st.readers ==> Covered(st, st.readers[id])
  }

  /** A look parks only when there is nothing to read at that moment. */
  lemma ParksOnlyAtTheHead(limits: Limits, st: State, after: nat)
    ensures Look(ViewOf(limits, st.history, st.closed), after).None? <==> !Something(st, after)
  {
    CursorContract(limits, st.history, st.closed, after);
    if after == |st.history| {
      NothingAfterTheHead(limits, st.history, st.closed);
    }
  }

  lemma StepKeepsWakeups(limits: Limits, st: State, step: Step)
    requires NoLostWakeup(st)
    ensures NoLostWakeup(Next(limits, st, step))
  {
    var next := Next(limits, st, step);
    forall id | id in next.readers ensures Covered(next, next.readers[id]) {
      ParksOnlyAtTheHead(limits, st, next.readers[id].after);
      assert id in st.readers ==> Covered(st, st.readers[id]);
    }
  }

  /** No lost wake-up over any interleaving of writers and readers. */
  lemma {:induction false} NoWakeupIsEverLost(limits: Limits, st: State, steps: seq<Step>)
    requires NoLostWakeup(st)
    ensures NoLostWakeup(Run(limits, st, steps))
    decreases steps
  {
    if steps != [] {
      StepKeepsWakeups(limits, st, steps[0]);
      NoWakeupIsEverLost(limits, Next(limits, st, steps[0]), steps[1..]);
    }
  }

  /** So once every writer has sent its bump, a parked reader with something to
      read can wake, and its next look answers it. */
  lemma AParkedReaderIsAnswered(limits: Limits, steps: seq<Step>, id: ReaderId)
    requires var st := Run(limits, State([], false, 0, 0, false, map[]), steps);
             && st.unsent == 0 && !st.closeUnsent
             && id in st.readers && st.readers[id].Parked? && Something(st, st.readers[id].after)
    ensures var st := Run(limits, State([], false, 0, 0, false, map[]), steps);
            id !in Run(limits, st, [Wake(id), LookOnce(id)]).readers
  {
    var empty := State([], false, 0, 0, false, map[]);
    NoWakeupIsEverLost(limits, empty, steps);
    var st := Run(limits, empty, steps);
    assert Covered(st, st.readers[id]);
    var woken := Next(limits, st, Wake(id));
    ParksOnlyAtTheHead(limits, woken, st.readers[id].after);
    var answered := Next(limits, woken, LookOnce(id));
    assert [Wake(id), LookOnce(id)][1..] == [LookOnce(id)];
    assert Run(limits, woken, [LookOnce(id)]) == Run(limits, answered, []);
  }
}
