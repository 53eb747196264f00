/**
 The registry and its secrets (src-tauri/src/claude/accounts.rs): every change
 is saved before it returns, or nothing changes, in the file, in memory and in
 the secret store.
 */
module AccountRegistries {
  import opened Wrappers
  import opened Accounts
  import opened AccountFiles
  import opened AccountEntries
  import opened AccountHolding
  import opened AccountReturns
  import opened AccountSurvival
  import opened AccountChanges
  import opened Shuffles
  import Text

  /** What stays the same during a run; without `hasFile` nothing is saved. */
  datatype Setup = Setup(m: Machine, base: string, hasFile: bool)

  /** `secrets` is the secret store, by account; `known` what is remembered of
      it. */
  datatype State = State(
    data: Registry,
    disk: Option<File>,
    secrets: map<string, string>,
    known: map<string, bool>,
    generation: nat)

  /** A change and how the world answers it: whether the file could be written
      (`saved`), the secret store read (`got`) and written (`stored`), a stored
      secret put back (`undone`) or deleted (`deleted`). Each is all or nothing.
      A removal deletes the secret after it gave up the lock: `ForgetSecretCall`,
      with `deleted` false for an account without a token. */
  datatype Call =
    | AddDirectoryCall(name: string, dir: string, color: Option<string>, id: string, now: int, created: bool,
                       saved: bool)
    | AddTokenCall(name: string, token: Option<string>, color: Option<string>, id: string, now: int, stored: bool,
                   saved: bool, undone: bool)
    | SetTokenCall(id: string, secret: string, got: bool, stored: bool, saved: bool, undone: bool)
    | UpdateCall(id: string, rename: Option<string>, color: Option<string>, saved: bool)
    | RemoveCall(id: string, saved: bool)
    | ForgetSecretCall(id: string, deleted: bool)
    | SetDefaultsCall(newSession: string, bridge: string, projects: seq<(string, string)>, saved: bool)
    | SetCopyConsentCall(giver: string, taker: string, granted: bool, saved: bool)

  /** The registry a change would make, or why it is refused. */
  function Plan(su: Setup, reg: Registry, call: Call): Result<Registry, Error> {
    match call
    case AddDirectoryCall(name, dir, color, id, now, created, _) =>
      AddDirectory(su.m, su.base, reg, name, dir, color, id, now, created)
    case AddTokenCall(name, token, color, id, now, _, _, _) => AddToken(su.m, reg, name, token, color, id, now)
    case SetTokenCall(id, secret, _, _, _, _) => SetToken(su.m, reg, id, secret)
    case UpdateCall(id, rename, color, _) => Update(su.m, reg, id, rename, color)
    case RemoveCall(id, _) => Remove(reg, id)
    case ForgetSecretCall(_, _) => Ok(reg)
    case SetDefaultsCall(newSession, bridge, projects, _) => SetDefaults(reg, newSession, bridge, projects)
    case SetCopyConsentCall(giver, taker, granted, _) => SetCopyConsent(reg, giver, taker, granted)
  }

  /** The secret store refuses the change before anything is saved. */
  predicate SecretsFail(call: Call) {
    match call
    case AddTokenCall(_, token, _, _, _, stored, _, _) => token.Some? && !stored
    case SetTokenCall(_, _, got, stored, _, _) => !got || !stored
    case _ => false
  }

  /** An unchanged registry is not saved again by these. */
  predicate SavesOnlyChanges(call: Call) {
    call.UpdateCall? || call.SetDefaultsCall? || call.SetCopyConsentCall? || call.ForgetSecretCall?
  }

  /** What the change answers when it fails. */
  function Failure(su: Setup, st: State, call: Call): Option<Error> {
    var plan := Plan(su, st.data, call);
    if plan.Err? then Some(plan.error)
    else if SecretsFail(call) then Some(SecretFailed)
    else if SavesOnlyChanges(call) && plan.value == st.data then None
    else if su.hasFile && !call.saved then Some(SaveFailed)
    else None
  }

  function Commit(su: Setup, st: State, next: Registry): State {
    st.(data := next, disk := if su.hasFile then Some(ToFile(next)) else st.disk, generation := st.generation + 1)
  }

  /** The secret store and what is known of it after a failed save. */
  function RolledBack(st: State, call: Call): State {
    match call
    case AddTokenCall(_, token, _, id, _, _, _, undone) =>
      if token.Some? && !undone then st.(secrets := st.secrets[id := token.value]) else st
    case SetTokenCall(id, secret, _, _, _, undone) =>
      st.(secrets := if undone then st.secrets else st.secrets[id := secret], known := st.known[id := true])
    case _ => st
  }

  /** The secret store and what is known of it after a save. */
  function WithSecrets(st: State, call: Call): State {
    match call
    case AddTokenCall(_, token, _, id, _, _, _, _) =>
      st.(secrets := if token.Some? then st.secrets[id := token.value] else st.secrets,
          known := st.known[id := token.Some?])
    case SetTokenCall(id, secret, _, _, _, _) => st.(secrets := st.secrets[id := secret], known := st.known[id := true])
    case ForgetSecretCall(id, deleted) =>
      st.(secrets := if deleted then st.secrets - {id} else st.secrets, known := st.known - {id})
    case _ => st
  }

  function Next(su: Setup, st: State, call: Call): State {
    var plan := Plan(su, st.data, call);
    var failure := Failure(su, st, call);
    if failure == Some(SaveFailed) then RolledBack(st, call)
    else if failure.Some? then st
    else if SavesOnlyChanges(call) && plan.value == st.data then WithSecrets(st, call)
    else WithSecrets(Commit(su, st, plan.value), call)
  }

  /** A random account id is new. */
  ghost predicate FreshId(st: State, id: string) {
    IsAccountId(id) && !Has(st.data.accounts, id) && id !in st.data.held.ids && id !in st.secrets
  }

  ghost predicate Possible(st: State, call: Call) {
    && ((call.AddDirectoryCall? || call.AddTokenCall?) ==> FreshId(st, call.id))
    && (call.ForgetSecretCall? ==> !Has(st.data.accounts, call.id))
  }

  // ------------------------------------------------------------------ transactions

  /** The plan of no change is refused by the file; it is the save that fails. */
  lemma PlansDoNotSave(su: Setup, reg: Registry, call: Call)
    ensures Plan(su, reg, call).Err? ==>
      Plan(su, reg, call).error != SaveFailed && Plan(su, reg, call).error != SecretFailed
  {
    if call.SetDefaultsCall? {
      ProjectErrors(reg.accounts, call.projects);
    }
  }

  lemma {:induction false} ProjectErrors(accounts: seq<Account>, projects: seq<(string, string)>)
    ensures CleanProjects(accounts, projects).Err? ==>
      CleanProjects(accounts, projects).error.NotFound? || CleanProjects(accounts, projects).error == Invalid
    decreases |projects|
  {
    if projects != [] {
      ProjectErrors(accounts, projects[..|projects| - 1]);
    }
  }

  lemma PlanKeepsRules(su: Setup, st: State, call: Call)
    requires Sane(su.m) && WellFormed(su.m, su.base, st.data) && Possible(st, call)
    requires Plan(su, st.data, call).Ok?
    ensures KeepsRules(su.m, su.base, st.data, Plan(su, st.data, call).value)
  {
    var reg := st.data;
    match call
    case AddDirectoryCall(name, dir, color, id, now, created, _) =>
      AddDirectoryKeeps(su.m, su.base, reg, name, dir, color, id, now, created);
    case AddTokenCall(name, token, color, id, now, _, _, _) =>
      AddTokenKeeps(su.m, su.base, reg, name, token, color, id, now);
    case SetTokenCall(id, secret, _, _, _, _) => SetTokenKeeps(su.m, su.base, reg, id, secret);
    case UpdateCall(id, rename, color, _) => UpdateKeeps(su.m, su.base, reg, id, rename, color);
    case RemoveCall(id, _) => RemoveKeeps(su.m, su.base, reg, id);
    case ForgetSecretCall(_, _) =>
    case SetDefaultsCall(newSession, bridge, projects, _) =>
      SetDefaultsKeeps(su.m, su.base, reg, newSession, bridge, projects);
    case SetCopyConsentCall(giver, taker, granted, _) =>
      SetCopyConsentKeeps(su.m, su.base, reg, giver, taker, granted);
  }

  /** Every change keeps unique ids and names, directories apart, and no dangling
      default, project or consent; and unique tokens, unless the load brought
      twins. */
  lemma CallKeepsRules(su: Setup, st: State, call: Call)
    requires Sane(su.m) && WellFormed(su.m, su.base, st.data) && Possible(st, call)
    ensures KeepsRules(su.m, su.base, st.data, Next(su, st, call).data)
  {
    AllOrNothing(su, st, call);
    if Failure(su, st, call).None? {
      PlanKeepsRules(su, st, call);
    }
  }

  /** All or nothing: a change that fails leaves the registry and the file as
      they were, and the secrets too unless a rollback fails; one that succeeds
      is what it planned, in memory and in the file. */
  lemma AllOrNothing(su: Setup, st: State, call: Call)
    ensures var next := Next(su, st, call);
      if Failure(su, st, call).Some? then
        next.data == st.data && next.disk == st.disk && next.generation == st.generation
        && (((call.AddTokenCall? || call.SetTokenCall?) ==> call.undone) ==> next.secrets == st.secrets)
      else
        && Ok(next.data) == Plan(su, st.data, call)
        && (next.generation == st.generation ==> next.data == st.data && next.disk == st.disk)
        && (next.generation != st.generation && su.hasFile ==> next.disk == Some(ToFile(next.data)))
  {
    PlansDoNotSave(su, st.data, call);
  }

  /** Every stored token is the one its account's hash was taken of. */
  ghost predicate TokensMatch(m: Machine, accounts: seq<Account>, secrets: map<string, string>) {
    forall i :: 0 <= i < |accounts| && accounts[i].kind == Token && accounts[i].id in secrets ==>
      HasToken(accounts[i], m.sha(secrets[accounts[i].id]))
  }

  predicate RollbackWorks(call: Call) {
    (call.AddTokenCall? || call.SetTokenCall?) ==> call.undone
  }

  lemma NewTokenMatches(m: Machine, accounts: seq<Account>, secrets: map<string, string>, a: Account,
                        token: Option<string>)
    requires TokensMatch(m, accounts, secrets) && !Has(accounts, a.id) && a.id !in secrets
    requires token.Some? ==> HasToken(a, m.sha(token.value))
    ensures TokensMatch(m, accounts + [a], if token.Some? then secrets[a.id := token.value] else secrets)
  {
  }

  lemma ReplacedMatches(m: Machine, accounts: seq<Account>, secrets: map<string, string>, p: nat, b: Account,
                        token: Option<string>)
    requires TokensMatch(m, accounts, secrets) && DistinctIds(accounts) && p < |accounts| && b.id == accounts[p].id
    requires if token.Some? then HasToken(b, m.sha(token.value))
             else b.kind == accounts[p].kind && b.tokenSha == accounts[p].tokenSha
    ensures TokensMatch(m, accounts[p := b], if token.Some? then secrets[b.id := token.value] else secrets)
  {
  }

  lemma RemovedMatches(m: Machine, accounts: seq<Account>, secrets: map<string, string>, id: string)
    requires TokensMatch(m, accounts, secrets)
    ensures TokensMatch(m, Kept(accounts, OtherThan(id)), secrets)
  {
    var left := Kept(accounts, OtherThan(id));
    SplitElements(accounts, OtherThan(id));
    assert forall i :: 0 <= i < |left| ==> left[i] in accounts;
  }

  lemma PlanKeepsTokens(su: Setup, st: State, call: Call)
    requires DistinctIds(st.data.accounts) && Possible(st, call) && Plan(su, st.data, call).Ok?
    requires TokensMatch(su.m, st.data.accounts, st.secrets)
    ensures TokensMatch(su.m, Plan(su, st.data, call).value.accounts, WithSecrets(st, call).secrets)
  {
    var was, now := st.data.accounts, Plan(su, st.data, call).value.accounts;
    match call
    case AddDirectoryCall(_, _, _, _, _, _, _) => NewTokenMatches(su.m, was, st.secrets, now[|was|], None);
    case AddTokenCall(_, token, _, _, _, _, _, _) => NewTokenMatches(su.m, was, st.secrets, now[|was|], token);
    case SetTokenCall(id, secret, _, _, _, _) =>
      ReplacedMatches(su.m, was, st.secrets, Position(was, id), now[Position(was, id)], Some(secret));
    case UpdateCall(id, _, _, _) =>
      ReplacedMatches(su.m, was, st.secrets, Position(was, id), now[Position(was, id)], None);
    case RemoveCall(id, _) => RemovedMatches(su.m, was, st.secrets, id);
    case _ =>
  }

  /** With rollbacks that work, stored tokens always match their accounts. */
  lemma CallKeepsTokens(su: Setup, st: State, call: Call)
    requires DistinctIds(st.data.accounts) && Possible(st, call) && RollbackWorks(call)
    requires TokensMatch(su.m, st.data.accounts, st.secrets)
    ensures TokensMatch(su.m, Next(su, st, call).data.accounts, Next(su, st, call).secrets)
  {
    PlansDoNotSave(su, st.data, call);
    if Plan(su, st.data, call).Ok? {
      PlanKeepsTokens(su, st, call);
    }
  }

  /** When the save of a new token fails: the store matches the registry exactly
      if the rollback works (or the token is the old one), and what is remembered
      of the store is right exactly if there was a token before, or it is still
      there because the rollback failed. */
  lemma AFailedSaveOfAToken(su: Setup, st: State, call: Call)
    requires GoodAccounts(su.m, st.data.accounts) && TokensMatch(su.m, st.data.accounts, st.secrets)
    requires call.SetTokenCall? && Failure(su, st, call) == Some(SaveFailed)
    ensures var next := Next(su, st, call);
      && (TokensMatch(su.m, next.data.accounts, next.secrets) <==>
          call.undone || HasToken(Find(st.data.accounts, call.id).value, su.m.sha(call.secret)))
      && call.id in next.known
      && ((next.known[call.id] <==> call.id in next.secrets) <==> call.id in st.secrets || !call.undone)
  {
    NamesApart(su.m, st.data.accounts);
    var p := Position(st.data.accounts, call.id);
    FoundIsTheOne(su.m, st.data.accounts, p);
    if !call.undone {
      OneTokenStored(su.m, st.data.accounts, st.secrets, p, call.secret);
    }
  }

  lemma OneTokenStored(m: Machine, accounts: seq<Account>, secrets: map<string, string>, p: nat, secret: string)
    requires TokensMatch(m, accounts, secrets) && DistinctIds(accounts) && p < |accounts| && accounts[p].kind == Token
    ensures TokensMatch(m, accounts, secrets[accounts[p].id := secret]) <==> HasToken(accounts[p], m.sha(secret))
  {
  }

  lemma PlanKeepsHeld(su: Setup, reg: Registry, call: Call)
    requires Plan(su, reg, call).Ok?
    ensures SameHeld(reg, Plan(su, reg, call).value)
    ensures reg.held == NOTHING_HELD ==> Plan(su, reg, call).value.held == NOTHING_HELD
  {
  }

  /** What an earlier run could not use stays with the registry, whatever is
      changed. What of it a save writes is another matter, see
      `AHeldProjectStaysExactly`. */
  lemma HeldStays(su: Setup, st: State, call: Call)
    ensures SameHeld(st.data, Next(su, st, call).data)
    ensures st.data.held == NOTHING_HELD ==> Next(su, st, call).data.held == NOTHING_HELD
  {
    AllOrNothing(su, st, call);
    if Plan(su, st.data, call).Ok? {
      PlanKeepsHeld(su, st.data, call);
    }
  }

  /** After a first token could not be saved and was deleted again, it is
      remembered as stored. */
  lemma AFirstTokenIsMisremembered(su: Setup, reg: Registry, a: Account, token: string)
    requires su.hasFile && reg == DEFAULT_REGISTRY.(accounts := [DEFAULT_ACCOUNT, a])
    requires a.kind == Token && a.id != DEFAULT_ID && a.tokenSha == None && TokenShape(token)
    ensures var st := State(reg, None, map[], map[], 0);
      var call := SetTokenCall(a.id, token, true, true, false, true);
      Failure(su, st, call) == Some(SaveFailed) && Next(su, st, call) == st.(known := map[a.id := true])
  {
    assert reg.accounts[0] == DEFAULT_ACCOUNT && reg.accounts[1] == a;
  }

  ghost predicate Saved(su: Setup, st: State) {
    su.hasFile && st.generation > 0 ==> st.disk == Some(ToFile(st.data))
  }

  ghost predicate Inv(su: Setup, st: State) {
    Rules(su.m, su.base, st.data) && TokensMatch(su.m, st.data.accounts, st.secrets) && Saved(su, st)
  }

  function Run(su: Setup, st: State, calls: seq<Call>): State
    decreases calls
  {
    if calls == [] then st else Run(su, Next(su, st, calls[0]), calls[1..])
  }

  ghost predicate AllPossible(su: Setup, st: State, calls: seq<Call>)
    decreases calls
  {
    calls == [] || (Possible(st, calls[0]) && AllPossible(su, Next(su, st, calls[0]), calls[1..]))
  }

  predicate RollbacksWork(calls: seq<Call>) {
    forall i :: 0 <= i < |calls| ==> RollbackWorks(calls[i])
  }

  /** The part that needs nothing of tokens and secrets. */
  lemma {:induction false} ChangesKeep(su: Setup, st: State, calls: seq<Call>)
    requires Sane(su.m) && WellFormed(su.m, su.base, st.data) && Saved(su, st) && AllPossible(su, st, calls)
    ensures WellFormed(su.m, su.base, Run(su, st, calls).data) && Saved(su, Run(su, st, calls))
    ensures SameHeld(st.data, Run(su, st, calls).data)
    ensures st.data.held == NOTHING_HELD ==> Run(su, st, calls).data.held == NOTHING_HELD
    decreases calls
  {
    if calls != [] {
      CallKeepsRules(su, st, calls[0]);
      AllOrNothing(su, st, calls[0]);
      HeldStays(su, st, calls[0]);
      ChangesKeep(su, Next(su, st, calls[0]), calls[1..]);
    }
  }

  /** Whatever is changed, in whatever order and with whichever failures, the
      registry keeps its rules, the stored tokens their accounts, the file the
      registry, and the registry what it holds for other runs. */
  lemma {:induction false} TransactionsKeep(su: Setup, st: State, calls: seq<Call>)
    requires Sane(su.m) && Inv(su, st) && AllPossible(su, st, calls) && RollbacksWork(calls)
    ensures Inv(su, Run(su, st, calls)) && SameHeld(st.data, Run(su, st, calls).data)
    decreases calls
  {
    ChangesKeep(su, st, calls);
    if calls != [] {
      CallKeepsRules(su, st, calls[0]);
      NamesApart(su.m, st.data.accounts);
      CallKeepsTokens(su, st, calls[0]);
      AllOrNothing(su, st, calls[0]);
      assert forall i :: 0 <= i < |calls| - 1 ==> calls[1..][i] == calls[i + 1];
      TransactionsKeep(su, Next(su, st, calls[0]), calls[1..]);
    }
  }

  // ------------------------------------------------------------------------- restarts

  /** Which changes take from what is held: removing an account that a held entry
      or consent names, and choosing a project that is held for another. */
  predicate Disturbs(reg: Registry, call: Call) {
    match call
    case RemoveCall(id, _) => HeldNames(reg.held, id)
    case SetDefaultsCall(_, _, projects, _) =>
      var clean := CleanProjects(reg.accounts, projects);
      clean.Ok? && exists dir :: dir in clean.value && dir in reg.held.byProject
    case _ => false
  }

  lemma AddsKeepHeld(su: Setup, st: State, call: Call)
    requires WellHeld(st.data) && Possible(st, call) && (call.AddDirectoryCall? || call.AddTokenCall?)
    requires Plan(su, st.data, call).Ok?
    ensures WellHeld(Plan(su, st.data, call).value)
  {
    var reg := st.data;
    var now := Plan(su, reg, call).value;
    var a := now.accounts[|reg.accounts|];
    assert a.id == call.id && now == Added(reg, a);
    AddedKeepsHeld(reg, a);
  }

  lemma ReplacesKeepHeld(su: Setup, st: State, call: Call)
    requires WellHeld(st.data) && (call.SetTokenCall? || call.UpdateCall? || call.SetCopyConsentCall?)
    requires Plan(su, st.data, call).Ok?
    ensures WellHeld(Plan(su, st.data, call).value)
  {
    SameIdsKeepHeld(st.data, Plan(su, st.data, call).value);
  }

  lemma PlanKeepsHeldExactly(su: Setup, st: State, call: Call)
    requires GoodAccounts(su.m, st.data.accounts) && WellHeld(st.data) && Possible(st, call)
    requires Plan(su, st.data, call).Ok?
    ensures WellHeld(Plan(su, st.data, call).value) <==> !Disturbs(st.data, call)
  {
    var reg := st.data;
    match call
    case AddDirectoryCall(_, _, _, _, _, _, _) => AddsKeepHeld(su, st, call);
    case AddTokenCall(_, _, _, _, _, _, _, _) => AddsKeepHeld(su, st, call);
    case SetTokenCall(_, _, _, _, _, _) => ReplacesKeepHeld(su, st, call);
    case UpdateCall(_, _, _, _) => ReplacesKeepHeld(su, st, call);
    case RemoveCall(id, _) => RemovedKeepsHeldExactly(su.m, reg, id);
    case SetDefaultsCall(newSession, bridge, projects, _) =>
      ChosenKeepsHeldExactly(reg, newSession, bridge, projects);
    case SetCopyConsentCall(_, _, _, _) => ReplacesKeepHeld(su, st, call);
    case ForgetSecretCall(_, _) =>
  }

  /** A change that succeeds leaves what is held as a load would have left it
      exactly when it takes nothing from it. */
  lemma CallKeepsHeldExactly(su: Setup, st: State, call: Call)
    requires GoodAccounts(su.m, st.data.accounts) && WellHeld(st.data) && Possible(st, call)
    ensures WellHeld(Next(su, st, call).data) <==> Failure(su, st, call).Some? || !Disturbs(st.data, call)
  {
    AllOrNothing(su, st, call);
    if Failure(su, st, call).None? {
      PlanKeepsHeldExactly(su, st, call);
    }
  }

  /** No change of the run takes from what is held. */
  predicate NoneDisturbs(su: Setup, st: State, calls: seq<Call>)
    decreases calls
  {
    calls == [] || (!Disturbs(st.data, calls[0]) && NoneDisturbs(su, Next(su, st, calls[0]), calls[1..]))
  }

  lemma {:induction false} ChangesKeepHeld(su: Setup, st: State, calls: seq<Call>)
    requires Sane(su.m) && WellFormed(su.m, su.base, st.data) && WellHeld(st.data)
    requires AllPossible(su, st, calls) && NoneDisturbs(su, st, calls)
    ensures WellHeld(Run(su, st, calls).data)
    decreases calls
  {
    if calls != [] {
      CallKeepsRules(su, st, calls[0]);
      CallKeepsHeldExactly(su, st, calls[0]);
      ChangesKeepHeld(su, Next(su, st, calls[0]), calls[1..]);
    }
  }

  /** A restart gives back all that was saved, and all that was held, exactly when
      what is held is as a load leaves it and could not be used now either: no
      change took from it, and none freed a name, an id or a directory that one
      of the held entries wants. */
  lemma RestartGivesBackExactly(su: Setup, st: State, calls: seq<Call>)
    requires Sane(su.m) && WellFormed(su.m, su.base, st.data) && Saved(su, st) && AllPossible(su, st, calls)
    requires NoDefault(st.data.held.accounts) && su.hasFile && Run(su, st, calls).generation > 0
    ensures var end := Run(su, st, calls);
      && end.disk == Some(ToFile(end.data))
      && (Same(end.data, FromFile(su.m, su.base, end.disk.value)) <==>
          WellHeld(end.data) && StaysHeld(su.m, su.base, end.data))
  {
    ChangesKeep(su, st, calls);
    ReloadsExactly(su.m, su.base, Run(su, st, calls).data);
  }

  /** Neither this run nor one under any of the directories can use anything of
      what is held. */
  ghost predicate NobodyUses(m: Machine, home: string, bases: seq<string>, reg: Registry) {
    StaysHeld(m, home, reg) && forall i :: 0 <= i < |bases| ==> StaysHeld(m, bases[i], reg)
  }

  /** Then also runs under other directories in between take nothing away, as long
      as they can use nothing of what is held. */
  lemma SavedWorkSurvives(su: Setup, st: State, calls: seq<Call>, bases: seq<string>)
    requires Sane(su.m) && WellFormed(su.m, su.base, st.data) && Saved(su, st) && AllPossible(su, st, calls)
    requires WellHeld(st.data) && NoneDisturbs(su, st, calls) && su.hasFile && Run(su, st, calls).generation > 0
    requires NobodyUses(su.m, su.base, bases, Run(su, st, calls).data)
    ensures var end := Run(su, st, calls);
      end.disk.Some? && Same(end.data, FromFile(su.m, su.base, AfterRuns(su.m, bases, end.disk.value)))
  {
    ChangesSave(su, st, calls);
    SavedStateSurvives(su.m, su.base, bases, Run(su, st, calls));
  }

  lemma SavedStateSurvives(m: Machine, home: string, bases: seq<string>, end: State)
    ensures (WellFormed(m, home, end.data) && WellHeld(end.data) && end.disk == Some(ToFile(end.data))
             && NobodyUses(m, home, bases, end.data)) ==>
      Same(end.data, FromFile(m, home, AfterRuns(m, bases, end.disk.value)))
  {
    if WellFormed(m, home, end.data) && WellHeld(end.data) && NobodyUses(m, home, bases, end.data) {
      AccountsSurvive(m, home, bases, end.data);
    }
  }

  lemma ChangesSave(su: Setup, st: State, calls: seq<Call>)
    requires Sane(su.m) && WellFormed(su.m, su.base, st.data) && Saved(su, st) && AllPossible(su, st, calls)
    requires WellHeld(st.data) && NoneDisturbs(su, st, calls) && su.hasFile && Run(su, st, calls).generation > 0
    ensures var end := Run(su, st, calls);
      WellFormed(su.m, su.base, end.data) && WellHeld(end.data) && end.disk == Some(ToFile(end.data))
  {
    ChangesKeep(su, st, calls);
    ChangesKeepHeld(su, st, calls);
  }

  /** Without condition when nothing was held to begin with. */
  lemma SavedWorkSurvivesWithNothingHeld(su: Setup, st: State, calls: seq<Call>, bases: seq<string>)
    requires Sane(su.m) && WellFormed(su.m, su.base, st.data) && Saved(su, st) && AllPossible(su, st, calls)
    requires st.data.held == NOTHING_HELD && su.hasFile && Run(su, st, calls).generation > 0
    ensures var end := Run(su, st, calls);
      end.disk.Some? && Same(end.data, FromFile(su.m, su.base, AfterRuns(su.m, bases, end.disk.value)))
  {
    ChangesKeep(su, st, calls);
    AccountsSurviveWithNothingHeld(su.m, su.base, bases, Run(su, st, calls).data);
  }

  /** Changes made while an account is left out: a run under another directory
      loads the file of `reg`, and then anything is changed and saved. At home an
      account it left out is back exactly when none of the accounts the run ended
      with, as far as they fit there, took its id, its name or its directory. */
  lemma ChangesElsewhere(odd: Setup, home: string, reg: Registry, st: State, calls: seq<Call>, a: Account)
    requires Sane(odd.m) && WellFormed(odd.m, home, reg) && NoDefault(reg.held.accounts)
    requires odd.hasFile && st.data == FromFile(odd.m, odd.base, ToFile(reg)) && st.generation == 0
    requires AllPossible(odd, st, calls) && Run(odd, st, calls).generation > 0
    requires a in reg.accounts && !Fits(odd.m, odd.base, a)
    ensures var end := Run(odd, st, calls);
      && end.disk.Some?
      && (a in FromFile(odd.m, home, end.disk.value).accounts <==>
          forall b :: b in end.data.accounts && Fits(odd.m, home, b) ==> Apart(odd.m, b, a))
  {
    OwnFileLoadsWell(odd.m, odd.base, reg);
    ChangesKeep(odd, st, calls);
    LeftOutComesBackExactly(odd.m, odd.base, home, reg, Run(odd, st, calls).data, a);
  }

  lemma PutBack(secrets: map<string, string>, id: string, secret: string)
    ensures id in secrets ==> secrets[id := secret][id := secrets[id]] == secrets
    ensures id !in secrets ==> secrets[id := secret] - {id} == secrets
  {
  }

  class AccountRegistry {
    const setup: Setup
    var data: Registry
    var disk: Option<File>
    var secrets: map<string, string>
    var known: map<string, bool>
    var generation: nat

    ghost function View(): State
      reads this
    {
      State(data, disk, secrets, known, generation)
    }

    /** Load the file, or start with the Default alone. */
    constructor (setup: Setup, disk: Option<File>, secrets: map<string, string>)
      ensures this.setup == setup
      ensures View() == State(if setup.hasFile && disk.Some? then FromFile(setup.m, setup.base, disk.value)
                              else DEFAULT_REGISTRY, disk, secrets, map[], 0)
    {
      this.setup, this.disk, this.secrets, known, generation := setup, disk, secrets, map[], 0;
      data := DEFAULT_REGISTRY;
      new;
      if setup.hasFile && disk.Some? {
        data := Load(setup.m, setup.base, disk.value);
      }
    }

    /** Save `next` and make it current; on a failed save nothing changes. */
    method Save(next: Registry, saved: bool) returns (ok: bool)
      modifies this`data, this`disk, this`generation
      ensures ok == (saved || !setup.hasFile)
      ensures View() == if ok then Commit(setup, old(View()), next) else old(View())
    {
      if setup.hasFile {
        if !saved {
          return false;
        }
        disk := Some(ToFile(next));
      }
      data, generation := next, generation + 1;
      ok := true;
    }

    method AddDirectory(call: Call) returns (r: Result<Account, Error>)
      requires call.AddDirectoryCall?
      modifies this
      ensures View() == Next(setup, old(View()), call)
      ensures if r.Ok? then Failure(setup, old(View()), call).None? && data.accounts == old(data.accounts) + [r.value]
              else Failure(setup, old(View()), call) == Some(r.error)
    {
      var plan := AccountChanges.AddDirectory(setup.m, setup.base, data, call.name, call.dir, call.color, call.id,
                                              call.now, call.created);
      PlansDoNotSave(setup, data, call);
      if plan.Err? {
        return Err(plan.error);
      }
      var ok := Save(plan.value, call.saved);
      if !ok {
        return Err(SaveFailed);
      }
      r := Ok(data.accounts[|data.accounts| - 1]);
    }

    method AddToken(call: Call) returns (r: Result<Account, Error>)
      requires call.AddTokenCall? && FreshId(View(), call.id)
      modifies this
      ensures View() == Next(setup, old(View()), call)
      ensures if r.Ok? then Failure(setup, old(View()), call).None? && data.accounts == old(data.accounts) + [r.value]
              else Failure(setup, old(View()), call) == Some(r.error)
      ensures r.Ok? ==> secrets == if call.token.Some? then old(secrets)[call.id := call.token.value] else old(secrets)
    {
      var plan := AccountChanges.AddToken(setup.m, data, call.name, call.token, call.color, call.id, call.now);
      PlansDoNotSave(setup, data, call);
      if plan.Err? {
        return Err(plan.error);
      }
      if call.token.Some? {
        if !call.stored {
          return Err(SecretFailed);
        }
        PutBack(secrets, call.id, call.token.value);
        secrets := secrets[call.id := call.token.value];
      }
      var ok := Save(plan.value, call.saved);
      if !ok {
        if call.token.Some? && call.undone {
          secrets := secrets - {call.id};
        }
        return Err(SaveFailed);
      }
      known := known[call.id := call.token.Some?];
      r := Ok(data.accounts[|data.accounts| - 1]);
    }

    /** Replace a token account's token, putting the old one back when the
        registry cannot be saved. */
    method SetToken(call: Call) returns (r: Result<Account, Error>)
      requires call.SetTokenCall?
      modifies this
      ensures View() == Next(setup, old(View()), call)
      ensures if r.Ok? then Failure(setup, old(View()), call).None? && r.value in data.accounts && r.value.id == call.id
              else Failure(setup, old(View()), call) == Some(r.error)
      ensures r.Ok? ==> secrets == old(secrets)[call.id := call.secret]
    {
      var plan := AccountChanges.SetToken(setup.m, data, call.id, call.secret);
      PlansDoNotSave(setup, data, call);
      if plan.Err? {
        return Err(plan.error);
      }
      if !call.got || !call.stored {
        return Err(SecretFailed);
      }
      PutBack(secrets, call.id, call.secret);
      var previous := if call.id in secrets then Some(secrets[call.id]) else None;
      secrets := secrets[call.id := call.secret];
      known := known[call.id := true];
      var updated := plan.value.accounts[Position(data.accounts, call.id)];
      var ok := Save(plan.value, call.saved);
      if !ok {
        if call.undone {
          secrets := if previous.Some? then secrets[call.id := previous.value] else secrets - {call.id};
        }
        return Err(SaveFailed);
      }
      r := Ok(updated);
    }

    method Update(call: Call) returns (r: Result<Account, Error>)
      requires call.UpdateCall?
      modifies this
      ensures View() == Next(setup, old(View()), call)
      ensures if r.Ok? then Failure(setup, old(View()), call).None? && r.value in data.accounts && r.value.id == call.id
              else Failure(setup, old(View()), call) == Some(r.error)
    {
      var plan := AccountChanges.Update(setup.m, data, call.id, call.rename, call.color);
      PlansDoNotSave(setup, data, call);
      if plan.Err? {
        return Err(plan.error);
      }
      var updated := plan.value.accounts[Position(data.accounts, call.id)];
      if plan.value != data {
        var ok := Save(plan.value, call.saved);
        if !ok {
          return Err(SaveFailed);
        }
      }
      r := Ok(updated);
    }

    /** Forget an account; once the lock is given up, also its secret. */
    method Remove(call: Call, deleted: bool) returns (r: Result<Account, Error>)
      requires call.RemoveCall?
      modifies this
      ensures r.Err? ==> Failure(setup, old(View()), call) == Some(r.error) && View() == old(View())
      ensures r.Ok? ==>
        && Failure(setup, old(View()), call).None? && Find(old(data).accounts, call.id) == Some(r.value)
        && View() == Next(setup, Next(setup, old(View()), call),
                          ForgetSecretCall(call.id, r.value.kind == Token && deleted))
    {
      var account := Find(data.accounts, call.id);
      var removed := RemoveAccount(call);
      if removed.Some? {
        return Err(removed.value);
      }
      ForgetSecret(call.id, account.value.kind == Token && deleted);
      r := Ok(account.value);
    }

    /** The part under the lock. */
    method RemoveAccount(call: Call) returns (e: Option<Error>)
      requires call.RemoveCall?
      modifies this`data, this`disk, this`generation
      ensures View() == Next(setup, old(View()), call) && e == Failure(setup, old(View()), call)
      ensures e.Some? ==> View() == old(View())
      ensures e.None? ==> Has(old(data).accounts, call.id)
    {
      var plan := AccountChanges.Remove(data, call.id);
      PlansDoNotSave(setup, data, call);
      if plan.Err? {
        return Some(plan.error);
      }
      var ok := Save(plan.value, call.saved);
      e := if ok then None else Some(SaveFailed);
    }

    method ForgetSecret(id: string, deleted: bool)
      modifies this`secrets, this`known
      ensures View() == Next(setup, old(View()), ForgetSecretCall(id, deleted))
    {
      if deleted {
        secrets := secrets - {id};
      }
      known := known - {id};
    }

    /** Replace the defaults, checking the project entries one by one. */
    method SetDefaults(call: Call) returns (r: Result<Defaults, Error>)
      requires call.SetDefaultsCall?
      modifies this
      ensures View() == Next(setup, old(View()), call)
      ensures if r.Ok? then Failure(setup, old(View()), call).None? && data.defaults == r.value
              else Failure(setup, old(View()), call) == Some(r.error)
    {
      PlansDoNotSave(setup, data, call);
      if !Has(data.accounts, call.newSession) {
        return Err(NotFound(call.newSession));
      }
      if !Has(data.accounts, call.bridge) {
        return Err(NotFound(call.bridge));
      }
      var clean := CheckProjects(data.accounts, call.projects);
      if clean.Err? {
        return Err(clean.error);
      }
      var defaults := Defaults(call.newSession, call.bridge, clean.value);
      var next := data.(defaults := defaults, held := data.held.(newSession := None, bridge := None));
      if next != data {
        var ok := Save(next, call.saved);
        if !ok {
          return Err(SaveFailed);
        }
      }
      r := Ok(defaults);
    }

    method SetCopyConsent(call: Call) returns (e: Option<Error>)
      requires call.SetCopyConsentCall?
      modifies this
      ensures View() == Next(setup, old(View()), call)
      ensures e == Failure(setup, old(View()), call)
    {
      var plan := AccountChanges.SetCopyConsent(data, call.giver, call.taker, call.granted);
      PlansDoNotSave(setup, data, call);
      if plan.Err? {
        return Some(plan.error);
      }
      if plan.value != data {
        var ok := Save(plan.value, call.saved);
        if !ok {
          return Some(SaveFailed);
        }
      }
      e := None;
    }
  }

  /** The project entries, checked in order up to the first that is wrong. */
  method CheckProjects(accounts: seq<Account>, projects: seq<(string, string)>)
    returns (r: Result<map<string, string>, Error>)
    ensures r == CleanProjects(accounts, projects)
  {
    var clean := map[];
    var i := 0;
    while i < |projects|
      invariant i <= |projects|
      invariant CleanProjects(accounts, projects[..i]) == Ok(clean)
    {
      OneMoreProject(accounts, projects, i, clean);
      var (dir, id) := projects[i];
      if !Has(accounts, id) {
        FirstWrongDecides(accounts, projects, i + 1);
        return Err(NotFound(id));
      }
      var path := Text.Trim(dir);
      if !Absolute(path) || ".." in Parts(path) {
        FirstWrongDecides(accounts, projects, i + 1);
        return Err(Invalid);
      }
      clean := clean[ProjectKey(path) := id];
      i := i + 1;
    }
    assert projects[..i] == projects;
    r := Ok(clean);
  }

  lemma OneMoreProject(accounts: seq<Account>, projects: seq<(string, string)>, i: nat, clean: map<string, string>)
    requires i < |projects| && CleanProjects(accounts, projects[..i]) == Ok(clean)
    ensures CleanProjects(accounts, projects[..i + 1]) == CleanProject(accounts, clean, projects[i])
  {
    assert projects[..i + 1][..i] == projects[..i];
  }

  lemma {:induction false} FirstWrongDecides(accounts: seq<Account>, projects: seq<(string, string)>, k: nat)
    requires k <= |projects| && CleanProjects(accounts, projects[..k]).Err?
    ensures CleanProjects(accounts, projects) == CleanProjects(accounts, projects[..k])
    decreases |projects|
  {
    if k == |projects| {
      assert projects[..k] == projects;
    } else {
      var before := projects[..|projects| - 1];
      assert before[..k] == projects[..k];
      FirstWrongDecides(accounts, before, k);
    }
  }
}
