/**
 The readers-writer lock of the store calls (sidecar/src/host-env.ts) and the
 process-wide config directory it protects (sidecar/src/bridge-host.ts).
 */
module StoreLocks {
  import opened Wrappers

  /** A store call, known by its arrival number; `dir` is another account's
      config directory, which makes the call exclusive. */
  datatype Call = Call(number: nat, dir: Option<string>) {
    predicate Exclusive() {
      dir.Some?
    }
  }

  /** `inConfigDir`: no directory, or an empty one, is a shared call. */
  function Request(number: nat, configDir: Option<string>): Call {
    Call(number, if configDir == Some("") then None else configDir)
  }

  datatype State = State(
    shared: nat,
    exclusive: bool,
    waiting: seq<Call>,
    /** `process.env.CLAUDE_CONFIG_DIR`. */
    configDir: Option<string>,
    /** What the running exclusive call found there. */
    before: Option<string>,
    /** Started and not released yet; `working` also has its body unfinished. */
    running: set<Call>,
    working: set<Call>,
    started: seq<Call>)

  /** How many of `waiting` start now: the shared calls at its head, or one
      exclusive call there when nothing runs. */
  function Admitted(shared: nat, exclusive: bool, waiting: seq<Call>): (k: nat)
    ensures k <= |waiting|
    decreases |waiting|
  {
    if exclusive || waiting == [] then 0
    else if waiting[0].Exclusive() then (if shared > 0 then 0 else 1)
    else 1 + Admitted(shared + 1, false, waiting[1..])
  }

  /** Starting a call also runs its body up to the first wait: an exclusive one
      points the config directory at its own. */
  function Start(st: State, c: Call): State {
    var s := st.(running := st.running + {c}, working := st.working + {c}, started := st.started + [c]);
    if c.Exclusive() then s.(exclusive := true, before := st.configDir, configDir := c.dir)
    else s.(shared := st.shared + 1)
  }

  function StartAll(st: State, calls: seq<Call>): State
    decreases |calls|
  {
    if calls == [] then st else StartAll(Start(st, calls[0]), calls[1..])
  }

  function Pump(st: State): State {
    var k := Admitted(st.shared, st.exclusive, st.waiting);
    StartAll(st.(waiting := st.waiting[k..]), st.waiting[..k])
  }

  datatype Step = Arrive(configDir: Option<string>) | BodyEnds(call: Call) | Release(call: Call)

  function Arrivals(st: State): nat {
    |st.started| + |st.waiting|
  }

  function Next(st: State, step: Step): State {
    match step
    case Arrive(configDir) => Pump(st.(waiting := st.waiting + [Request(Arrivals(st), configDir)]))
    case BodyEnds(c) =>
      // The body's `finally` puts the directory back before the call settles.
      if c !in st.working then st
      else
        var s := st.(working := st.working - {c});
        if c.Exclusive() then s.(configDir := st.before) else s
    case Release(c) =>
      if c !in st.running || c in st.working then st
      else
        var s := st.(running := st.running - {c});
        Pump(if c.Exclusive() then s.(exclusive := false)
             else s.(shared := if st.shared > 0 then st.shared - 1 else 0))
  }

  function Run(st: State, steps: seq<Step>): State
    decreases steps
  {
    if steps == [] then st else Run(Next(st, steps[0]), steps[1..])
  }

  function Initial(base: Option<string>): State {
    State(0, false, [], base, base, {}, {}, [])
  }

  // ------------------------------------------------------------------ invariants

  /** An exclusive call runs alone; the counters say what runs. */
  ghost predicate Counted(st: State) {
    && st.working <= st.running
    && |st.running| == st.shared + (if st.exclusive then 1 else 0)
    && (st.exclusive ==> st.shared == 0)
    && (forall c :: c in st.running ==> (c.Exclusive() <==> st.exclusive))
  }

  /** Calls start in arrival order. */
  ghost predicate Ordered(st: State) {
    && (forall i :: 0 <= i < |st.started| ==> st.started[i].number == i)
    && (forall i :: 0 <= i < |st.waiting| ==> st.waiting[i].number == |st.started| + i)
    && (forall c :: c in st.running ==> c.number < |st.started|)
  }

  /** Shared bodies and idle moments see the base directory, an exclusive body
      its own. */
  ghost predicate Isolated(st: State, base: Option<string>) {
    && (st.exclusive ==> st.before == base)
    && (forall c :: c in st.working && c.Exclusive() ==> st.configDir == c.dir)
    && ((forall c :: c in st.working ==> !c.Exclusive()) ==> st.configDir == base)
  }

  /** Whatever waits, waits for something that runs. */
  ghost predicate Blocked(st: State) {
    st.waiting != [] ==> st.exclusive || (st.waiting[0].Exclusive() && st.shared > 0)
  }

  ghost predicate Inv(st: State, base: Option<string>) {
    Counted(st) && Ordered(st) && Isolated(st, base) && Blocked(st)
  }

  lemma StartKeeps(st: State, c: Call, base: Option<string>)
    requires Counted(st) && Ordered(st.(waiting := [c] + st.waiting)) && Isolated(st, base)
    requires !st.exclusive && (c.Exclusive() ==> st.shared == 0)
    ensures Counted(Start(st, c)) && Ordered(Start(st, c)) && Isolated(Start(st, c), base)
    ensures Start(st, c).shared - |Start(st, c).running| == st.shared - |st.running| - (if c.Exclusive() then 1 else 0)
  {
    assert ([c] + st.waiting)[0] == c;
    forall i | 0 <= i < |st.waiting| ensures st.waiting[i].number == |st.started| + 1 + i {
      assert ([c] + st.waiting)[i + 1] == st.waiting[i];
    }
    assert c !in st.running;
    if st.shared == 0 && c.Exclusive() {
      assert st.running == {};
    }
  }

  /** Pumping is starting the head and pumping again, or nothing. */
  lemma PumpUnfolds(st: State)
    ensures Admitted(st.shared, st.exclusive, st.waiting) == 0 ==> Pump(st) == st
    ensures Admitted(st.shared, st.exclusive, st.waiting) > 0 ==>
              Pump(st) == Pump(Start(st.(waiting := st.waiting[1..]), st.waiting[0]))
  {
    var k := Admitted(st.shared, st.exclusive, st.waiting);
    if k == 0 {
      assert st.waiting[..0] == [] && st.waiting[0..] == st.waiting;
    } else {
      var c := st.waiting[0];
      var rest := st.(waiting := st.waiting[1..]);
      var s := Start(rest, c);
      var j := Admitted(s.shared, s.exclusive, s.waiting);
      assert k == 1 + j;
      assert st.waiting[k..] == s.waiting[j..];
      assert st.waiting[..k] == [c] + s.waiting[..j];
      StartIgnoresQueue(st.(waiting := st.waiting[k..]), rest, c);
    }
  }

  /** Pumping keeps the invariants, starts as many as it takes off the queue,
      and leaves a head that must wait. */
  lemma {:induction false} PumpKeeps(st: State, base: Option<string>)
    requires Counted(st) && Ordered(st) && Isolated(st, base)
    ensures Inv(Pump(st), base)
    ensures |Pump(st).running| - |Pump(st).started| == |st.running| - |st.started|
    ensures Arrivals(Pump(st)) == Arrivals(st)
    ensures st.started <= Pump(st).started
    decreases |st.waiting|
  {
    PumpUnfolds(st);
    if Admitted(st.shared, st.exclusive, st.waiting) > 0 {
      var c := st.waiting[0];
      var rest := st.(waiting := st.waiting[1..]);
      assert [c] + rest.waiting == st.waiting;
      StartKeeps(rest, c, base);
      PumpKeeps(Start(rest, c), base);
    }
  }

  lemma TheOnlyOne(running: set<Call>, c: Call)
    requires |running| == 1 && c in running
    ensures running == {c}
  {
    assert |running - {c}| == 0;
  }

  lemma StartIgnoresQueue(a: State, b: State, c: Call)
    requires a.(waiting := b.waiting) == b
    ensures Start(a, c).(waiting := b.waiting) == Start(b, c)
  {
  }

  lemma StepKeepsInv(st: State, step: Step, base: Option<string>)
    requires Inv(st, base)
    ensures Inv(Next(st, step), base)
    ensures |Next(st, step).running| - |Next(st, step).started|
            == |st.running| - |st.started| - (if Releases(st, step) then 1 else 0)
    ensures st.started <= Next(st, step).started
  {
    match step
    case Arrive(configDir) =>
      var s := st.(waiting := st.waiting + [Request(Arrivals(st), configDir)]);
      PumpKeeps(s, base);
    case BodyEnds(c) =>
      if c in st.working && c.Exclusive() {
        TheOnlyOne(st.running, c);
      }
    case Release(c) =>
      if Releases(st, step) {
        var s := st.(running := st.running - {c});
        var freed := if c.Exclusive() then s.(exclusive := false) else s.(shared := st.shared - 1);
        assert |s.running| == |st.running| - 1;
        if c.Exclusive() {
          assert s.running == {};
        }
        PumpKeeps(freed, base);
        assert Next(st, step) == Pump(freed);
      }
  }

  predicate Releases(st: State, step: Step) {
    step.Release? && step.call in st.running && step.call !in st.working
  }

  function CountReleases(st: State, steps: seq<Step>): nat
    decreases steps
  {
    if steps == [] then 0
    else (if Releases(st, steps[0]) then 1 else 0) + CountReleases(Next(st, steps[0]), steps[1..])
  }

  /** Over every run: an exclusive call overlaps nothing, and every body sees the
      directory it was meant to see. */
  lemma {:induction false} ConfigDirIsIsolated(st: State, steps: seq<Step>, base: Option<string>)
    requires Inv(st, base)
    ensures Inv(Run(st, steps), base)
    ensures st.started <= Run(st, steps).started
    ensures |Run(st, steps).running| - |Run(st, steps).started|
            == |st.running| - |st.started| - CountReleases(st, steps)
    decreases steps
  {
    if steps != [] {
      StepKeepsInv(st, steps[0], base);
      ConfigDirIsIsolated(Next(st, steps[0]), steps[1..], base);
    }
  }

  /** Bounded waiting: with r calls running, the call at queue position p starts
      within r + p releases, whatever arrives meanwhile. */
  lemma WaitingIsBounded(st: State, steps: seq<Step>, base: Option<string>, p: nat)
    requires Inv(st, base) && p < |st.waiting|
    requires CountReleases(st, steps) >= |st.running| + p
    ensures st.started <= Run(st, steps).started
    ensures |Run(st, steps).started| > |st.started| + p
  {
    ConfigDirIsIsolated(st, steps, base);
    var end := Run(st, steps);
    if |end.started| <= |st.started| + p {
      ArrivalsGrow(st, steps, base);
      assert false;
    }
  }

  lemma {:induction false} ArrivalsGrow(st: State, steps: seq<Step>, base: Option<string>)
    requires Inv(st, base)
    ensures Arrivals(st) <= Arrivals(Run(st, steps))
    decreases steps
  {
    if steps != [] {
      StepKeepsInv(st, steps[0], base);
      ArrivalsGrowByStep(st, steps[0], base);
      ArrivalsGrow(Next(st, steps[0]), steps[1..], base);
    }
  }

  lemma ArrivalsGrowByStep(st: State, step: Step, base: Option<string>)
    requires Inv(st, base)
    ensures Arrivals(Next(st, step)) == Arrivals(st) + (if step.Arrive? then 1 else 0)
  {
    match step
    case Arrive(configDir) =>
      var s := st.(waiting := st.waiting + [Request(Arrivals(st), configDir)]);
      PumpKeeps(s, base);
    case BodyEnds(c) =>
    case Release(c) =>
      if Releases(st, step) {
        var s := st.(running := st.running - {c});
        var freed := if c.Exclusive() then s.(exclusive := false) else s.(shared := st.shared - 1);
        if c.Exclusive() {
          assert s.running == {};
        }
        PumpKeeps(freed, base);
        assert Next(st, step) == Pump(freed);
      }
  }

  // ------------------------------------------------------- what a caller asked for

  /** All the calls that ever arrived: the started ones, then the waiting. */
  function Calls(st: State): seq<Call> {
    st.started + st.waiting
  }

  lemma {:induction false} PumpKeepsCalls(st: State)
    ensures Calls(Pump(st)) == Calls(st)
    decreases |st.waiting|
  {
    PumpUnfolds(st);
    if Admitted(st.shared, st.exclusive, st.waiting) > 0 {
      var c := st.waiting[0];
      assert st.started + st.waiting == st.started + [c] + st.waiting[1..];
      PumpKeepsCalls(Start(st.(waiting := st.waiting[1..]), c));
    }
  }

  /** An arrival adds one call: the next number, and the directory it named,
      none for a missing or an empty one. */
  lemma AnArrivalIsAsAsked(st: State, configDir: Option<string>)
    ensures var next, asked := Next(st, Arrive(configDir)), if configDir == Some("") then None else configDir;
      && Calls(next) == Calls(st) + [Call(Arrivals(st), asked)]
      && (configDir.Some? && configDir.value != "" ==> Calls(next)[Arrivals(st)].dir == configDir)
      && (configDir == None || configDir == Some("") ==> Calls(next)[Arrivals(st)].dir == None)
  {
    var s := st.(waiting := st.waiting + [Request(Arrivals(st), configDir)]);
    PumpKeepsCalls(s);
    assert Calls(s) == Calls(st) + [Request(Arrivals(st), configDir)];
  }

  lemma OtherStepsKeepCalls(st: State, step: Step)
    requires !step.Arrive?
    ensures Calls(Next(st, step)) == Calls(st)
  {
    if Releases(st, step) {
      var c := step.call;
      var s := st.(running := st.running - {c});
      var freed := if c.Exclusive() then s.(exclusive := false)
                   else s.(shared := if st.shared > 0 then st.shared - 1 else 0);
      PumpKeepsCalls(freed);
    }
  }

  /** The directories the arrivals of a run named, in order. */
  function Asked(steps: seq<Step>): seq<Option<string>> {
    if steps == [] then []
    else
      var last := steps[|steps| - 1];
      Asked(steps[..|steps| - 1])
      + if !last.Arrive? then [] else [if last.configDir == Some("") then None else last.configDir]
  }

  lemma {:induction false} RunOfLast(st: State, steps: seq<Step>)
    requires steps != []
    ensures Run(st, steps) == Next(Run(st, steps[..|steps| - 1]), steps[|steps| - 1])
    decreases steps
  {
    if |steps| == 1 {
      assert steps[..0] == [] && steps[1..] == [];
    } else {
      assert steps[1..][..|steps| - 2] == steps[..|steps| - 1][1..];
      RunOfLast(Next(st, steps[0]), steps[1..]);
    }
  }

  /** Over every run: the k-th arrival is call k, with the directory its caller
      named, waiting or started. */
  lemma {:induction false} CallsAreAsAsked(base: Option<string>, steps: seq<Step>)
    ensures var calls, asked := Calls(Run(Initial(base), steps)), Asked(steps);
      |calls| == |asked| && forall k :: 0 <= k < |calls| ==> calls[k] == Call(k, asked[k])
    decreases |steps|
  {
    if steps != [] {
      var n := |steps| - 1;
      var st := Run(Initial(base), steps[..n]);
      CallsAreAsAsked(base, steps[..n]);
      RunOfLast(Initial(base), steps);
      if steps[n].Arrive? {
        AnArrivalIsAsAsked(st, steps[n].configDir);
      } else {
        OtherStepsKeepCalls(st, steps[n]);
      }
    }
  }

  /** What runs was started. */
  ghost predicate RunsStarted(st: State) {
    forall c :: c in st.running ==> c in st.started
  }

  lemma {:induction false} PumpRunsStarted(st: State)
    requires RunsStarted(st)
    ensures RunsStarted(Pump(st))
    decreases |st.waiting|
  {
    PumpUnfolds(st);
    if Admitted(st.shared, st.exclusive, st.waiting) > 0 {
      PumpRunsStarted(Start(st.(waiting := st.waiting[1..]), st.waiting[0]));
    }
  }

  lemma StepRunsStarted(st: State, step: Step)
    requires RunsStarted(st)
    ensures RunsStarted(Next(st, step))
  {
    match step
    case Arrive(configDir) => PumpRunsStarted(st.(waiting := st.waiting + [Request(Arrivals(st), configDir)]));
    case BodyEnds(c) =>
    case Release(c) =>
      if Releases(st, step) {
        var s := st.(running := st.running - {c});
        PumpRunsStarted(if c.Exclusive() then s.(exclusive := false)
                        else s.(shared := if st.shared > 0 then st.shared - 1 else 0));
      }
  }

  lemma {:induction false} RunRunsStarted(st: State, steps: seq<Step>)
    requires RunsStarted(st)
    ensures RunsStarted(Run(st, steps))
    decreases steps
  {
    if steps != [] {
      StepRunsStarted(st, steps[0]);
      RunRunsStarted(Next(st, steps[0]), steps[1..]);
    }
  }

  /** Over every run: while a call's body runs, the config directory is the one
      its caller named, or the base one when it named none. */
  lemma EveryBodySeesWhatItsCallerNamed(base: Option<string>, steps: seq<Step>, c: Call)
    requires c in Run(Initial(base), steps).working
    ensures c.number < |Asked(steps)|
    ensures Run(Initial(base), steps).configDir
         == if Asked(steps)[c.number].Some? then Asked(steps)[c.number] else base
  {
    var st := Run(Initial(base), steps);
    ConfigDirIsIsolated(Initial(base), steps, base);
    RunRunsStarted(Initial(base), steps);
    CallsAreAsAsked(base, steps);
    var k :| 0 <= k < |st.started| && st.started[k] == c;
    assert Calls(st)[k] == c;
    if !c.Exclusive() {
      assert !st.exclusive;
    }
  }

  /** A body that ended and released its place is over, and nothing else is. */
  lemma ACallEnds(st: State, base: Option<string>, c: Call)
    requires Inv(st, base) && c in st.working
    ensures var ended := Next(st, BodyEnds(c));
      && ended.working == st.working - {c} && ended.running == st.running
      && c !in Next(ended, Release(c)).running
      && st.running - {c} <= Next(ended, Release(c)).running
  {
    var ended := Next(st, BodyEnds(c));
    StepKeepsInv(st, BodyEnds(c), base);
    var s := ended.(running := ended.running - {c});
    var freed := if c.Exclusive() then s.(exclusive := false) else s.(shared := st.shared - 1);
    assert |s.running| == |st.running| - 1;
    PumpAddsOnlyWaiting(freed);
    assert forall i :: 0 <= i < |st.waiting| ==> st.waiting[i].number >= |st.started| > c.number;
  }

  lemma {:induction false} PumpAddsOnlyWaiting(st: State)
    ensures st.running <= Pump(st).running
    ensures forall c :: c in Pump(st).running ==> c in st.running || c in st.waiting
    decreases |st.waiting|
  {
    PumpUnfolds(st);
    if Admitted(st.shared, st.exclusive, st.waiting) > 0 {
      PumpAddsOnlyWaiting(Start(st.(waiting := st.waiting[1..]), st.waiting[0]));
    }
  }

  /** No call names a directory. */
  predicate OnlyDefault(steps: seq<Step>) {
    forall i :: 0 <= i < |steps| && steps[i].Arrive? ==>
      steps[i].configDir == None || steps[i].configDir == Some("")
  }

  /** With only the Default's calls nothing ever waits. */
  lemma {:induction false} DefaultNeverWaits(st: State, steps: seq<Step>, base: Option<string>)
    requires Inv(st, base) && !st.exclusive && st.waiting == [] && OnlyDefault(steps)
    ensures Run(st, steps).waiting == [] && Run(st, steps).configDir == base
    decreases steps
  {
    if steps == [] {
      assert forall c :: c in st.working ==> !c.Exclusive();
    } else {
      var next := Next(st, steps[0]);
      StepKeepsInv(st, steps[0], base);
      if steps[0].Arrive? {
        SharedStartsAtOnce(st, Request(Arrivals(st), steps[0].configDir));
      }
      DefaultNeverWaits(next, steps[1..], base);
    }
  }

  lemma SharedStartsAtOnce(st: State, c: Call)
    requires !st.exclusive && st.waiting == [] && !c.Exclusive()
    ensures Pump(st.(waiting := st.waiting + [c])) == Start(st, c)
  {
    var s := st.(waiting := st.waiting + [c]);
    assert s.waiting == [c] && s.waiting[1..] == [];
    PumpUnfolds(s);
    PumpUnfolds(Start(st, c));
  }

  class StoreLock {
    var shared: nat
    var exclusive: bool
    var waiting: seq<Call>
    var configDir: Option<string>
    var before: Option<string>
    var arrived: nat
    ghost var running: set<Call>
    ghost var working: set<Call>
    ghost var started: seq<Call>

    ghost function View(): State
      reads this
    {
      State(shared, exclusive, waiting, configDir, before, running, working, started)
    }

    constructor (base: Option<string>)
      ensures View() == Initial(base) && Inv(View(), base) && arrived == 0
    {
      shared, exclusive, waiting := 0, false, [];
      configDir, before, arrived := base, base, 0;
      running, working, started := {}, {}, [];
    }

    method StartCall(c: Call)
      modifies this
      ensures arrived == old(arrived)
      ensures View() == Start(old(View()), c)
    {
      if c.Exclusive() {
        exclusive := true;
        before := configDir;
        configDir := c.dir;
      } else {
        shared := shared + 1;
      }
      running, working, started := running + {c}, working + {c}, started + [c];
    }

    method PumpQueue()
      modifies this
      ensures arrived == old(arrived)
      ensures View() == Pump(old(View()))
    {
      while waiting != [] && !exclusive
        invariant arrived == old(arrived)
        invariant Pump(View()) == Pump(old(View()))
        decreases |waiting|
      {
        PumpUnfolds(View());
        var next := waiting[0];
        if next.Exclusive() && shared > 0 {
          break;
        }
        waiting := waiting[1..];
        StartCall(next);
        if next.Exclusive() {
          break;
        }
      }
      PumpUnfolds(View());
    }

    /** `run`: the call joins the queue, and the queue is pumped. */
    method Submit(dir: Option<string>)
      requires arrived == Arrivals(View())
      modifies this
      ensures View() == Next(old(View()), Arrive(dir))
      ensures Calls(View()) == Calls(old(View())) + [Call(old(arrived), if dir == Some("") then None else dir)]
      ensures arrived == old(arrived) + 1
    {
      AnArrivalIsAsAsked(View(), dir);
      waiting := waiting + [Request(arrived, dir)];
      arrived := arrived + 1;
      PumpQueue();
    }

    /** The end of a call's body, before its promise settles. */
    method EndBody(c: Call)
      requires c in working
      modifies this`configDir, this`working
      ensures View() == Next(old(View()), BodyEnds(c))
    {
      if c.Exclusive() {
        configDir := before;
      }
      working := working - {c};
    }

    /** The lock's own `finally`. */
    method Settle(c: Call)
      requires c in running && c !in working && Counted(View())
      modifies this
      ensures View() == Next(old(View()), Release(c))
      ensures arrived == old(arrived)
    {
      assert |running - {c}| == |running| - 1;
      if c.Exclusive() {
        exclusive := false;
      } else {
        shared := shared - 1;
      }
      running := running - {c};
      PumpQueue();
    }
  }
}
