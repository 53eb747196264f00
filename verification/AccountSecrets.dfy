/**
 The secret store and the environment of an account's children
 (src-tauri/src/claude/accounts.rs): which token is stored for whom, over single
 changes and over whole runs, and that a child runs with it.
 */
module AccountSecrets {
  import opened Wrappers
  import opened Accounts
  import opened AccountFiles
  import opened AccountEntries
  import opened AccountChanges
  import opened AccountAnswers
  import opened AccountRegistries
  import opened Shuffles

  function SecretOf(st: State, id: string): Option<string> {
    if id in st.secrets then Some(st.secrets[id]) else None
  }

  // ------------------------------------------------------------------------ one change

  predicate ForSecretOf(call: Call, id: string) {
    (call.AddTokenCall? || call.SetTokenCall? || call.ForgetSecretCall?) && call.id == id
  }

  /** The same is stored for the account, and known of it. */
  predicate SameSecret(st: State, next: State, id: string) {
    && SecretOf(next, id) == SecretOf(st, id)
    && (id in next.known <==> id in st.known)
    && (id in st.known ==> next.known[id] == st.known[id])
  }

  lemma SecretsOfOthers(st: State, call: Call, other: string)
    requires !ForSecretOf(call, other)
    ensures SameSecret(st, WithSecrets(st, call), other) && SameSecret(st, RolledBack(st, call), other)
  {
  }

  /** No change touches the secret of an account it is not for. */
  lemma OnlyItsOwnSecret(su: Setup, st: State, call: Call, other: string)
    requires !ForSecretOf(call, other)
    ensures SameSecret(st, Next(su, st, call), other)
  {
    SecretsOfOthers(st, call, other);
    if Plan(su, st.data, call).Ok? {
      SecretsOfOthers(Commit(su, st, Plan(su, st.data, call).value), call, other);
    }
  }

  /** After a new account with a token was saved, its token is stored, and known to
      be. */
  lemma AnAddedTokenIsStored(su: Setup, st: State, call: Call)
    requires call.AddTokenCall? && Failure(su, st, call).None?
    ensures var next := Next(su, st, call);
      && SecretOf(next, call.id) == (if call.token.Some? then call.token else SecretOf(st, call.id))
      && call.id in next.known && next.known[call.id] == call.token.Some?
  {
  }

  lemma ASetTokenIsStored(su: Setup, st: State, call: Call)
    requires call.SetTokenCall? && Failure(su, st, call).None?
    ensures var next := Next(su, st, call);
      SecretOf(next, call.id) == Some(call.secret) && call.id in next.known && next.known[call.id]
  {
  }

  lemma AForgottenTokenIsGone(su: Setup, st: State, call: Call)
    requires call.ForgetSecretCall?
    ensures var next := Next(su, st, call);
      && SecretOf(next, call.id) == (if call.deleted then None else SecretOf(st, call.id))
      && call.id !in next.known && next.data == st.data && next.disk == st.disk
  {
  }

  /** The save of the call fails after the new secret was stored, and the old one
      cannot be put back. */
  predicate Strands(su: Setup, st: State, call: Call) {
    && (call.AddTokenCall? || call.SetTokenCall?)
    && Failure(su, st, call) == Some(SaveFailed) && !call.undone
  }

  /** After a failure the store is as it was, unless the new token was stranded
      there. */
  lemma AFailedCallSays(su: Setup, st: State, call: Call, id: string)
    requires Failure(su, st, call).Some?
    ensures var next := Next(su, st, call);
      SecretOf(next, id) ==
        if !(Strands(su, st, call) && call.id == id) then SecretOf(st, id)
        else if call.SetTokenCall? then Some(call.secret)
        else if call.token.Some? then call.token
        else SecretOf(st, id)
  {
    PlansDoNotSave(su, st.data, call);
  }

  /** Nothing is saved that could not be written, and nothing stored that the
      secret store refused. */
  lemma WhatCannotBeWrittenIsNot(su: Setup, st: State, call: Call)
    requires !call.ForgetSecretCall?
    ensures su.hasFile && !call.saved ==> Next(su, st, call).disk == st.disk && Next(su, st, call).data == st.data
    ensures ((call.AddTokenCall? && call.token.Some?) || call.SetTokenCall?) && !call.stored ==>
      Failure(su, st, call).Some? && Next(su, st, call) == st
  {
    PlansDoNotSave(su, st.data, call);
  }

  /** A change that changes nothing needs no save and succeeds; any other that
      succeeds is saved once. */
  lemma WhatChangesIsSaved(su: Setup, st: State, call: Call)
    requires Plan(su, st.data, call).Ok?
    ensures call.UpdateCall? || call.SetDefaultsCall? || call.SetCopyConsentCall? ==>
      Plan(su, st.data, call).value == st.data ==> Failure(su, st, call).None? && Next(su, st, call) == st
    ensures Failure(su, st, call).None? && Plan(su, st.data, call).value != st.data ==>
      var next := Next(su, st, call);
      && next.generation == st.generation + 1 && (!su.hasFile ==> next.disk == st.disk)
      && (su.hasFile ==> next.disk == Some(ToFile(next.data)))
  {
  }

  /** What a refusal means. */
  ghost predicate Means(su: Setup, reg: Registry, call: Call, error: Error) {
    match error
    case NotFound(id) => !Has(reg.accounts, id)
    case NameTakenBy(name) =>
      && (call.AddDirectoryCall? || call.AddTokenCall? || call.UpdateCall?)
      && exists i :: 0 <= i < |reg.accounts| && su.m.fold(reg.accounts[i].name) == su.m.fold(name)
                     && (call.UpdateCall? ==> reg.accounts[i].id != call.id)
    case DefaultFixed => call.RemoveCall? && call.id == DEFAULT_ID
    case DirUnavailable =>
      call.AddDirectoryCall? && (!call.created || exists dir :: su.m.normalize(call.dir) == Some(dir)
                                                              && !DirFree(su.m, su.base, reg.accounts, dir))
    case NotToken =>
      call.SetTokenCall? && exists i :: 0 <= i < |reg.accounts| && reg.accounts[i].id == call.id
                                        && reg.accounts[i].kind != Token
    case Invalid => !call.RemoveCall? && !call.SetCopyConsentCall?
    case SecretFailed => ((call.AddTokenCall? && call.token.Some?) || call.SetTokenCall?) && SecretsFail(call)
    case SaveFailed => su.hasFile && !call.ForgetSecretCall? && !call.saved
    case TokenMissing => false
  }

  lemma {:induction false} ProjectRefusals(accounts: seq<Account>, projects: seq<(string, string)>)
    ensures CleanProjects(accounts, projects).Err? ==>
      var e := CleanProjects(accounts, projects).error; e == Invalid || (e.NotFound? && !Has(accounts, e.id))
    decreases |projects|
  {
    if projects != [] {
      ProjectRefusals(accounts, projects[..|projects| - 1]);
    }
  }

  lemma PlanRefusalsMean(su: Setup, reg: Registry, call: Call)
    requires Plan(su, reg, call).Err?
    ensures Means(su, reg, call, Plan(su, reg, call).error)
  {
    if call.SetDefaultsCall? {
      ProjectRefusals(reg.accounts, call.projects);
    }
  }

  /** Every refusal means what it says. */
  lemma RefusalsMean(su: Setup, st: State, call: Call)
    requires Failure(su, st, call).Some?
    ensures Means(su, st.data, call, Failure(su, st, call).value)
  {
    if Plan(su, st.data, call).Err? {
      PlanRefusalsMean(su, st.data, call);
    }
  }

  // -------------------------------------------------------------------------- whole runs

  /** The call leaves this token in the store. */
  predicate Stores(su: Setup, st: State, call: Call, id: string, token: string) {
    && (call.AddTokenCall? || call.SetTokenCall?) && call.id == id
    && (if call.AddTokenCall? then call.token == Some(token) else call.secret == token)
    && (Failure(su, st, call).None? || Strands(su, st, call))
  }

  lemma StepSecrets(su: Setup, st: State, call: Call, id: string, token: string)
    ensures SecretOf(Next(su, st, call), id) == Some(token) ==>
      SecretOf(st, id) == Some(token) || Stores(su, st, call, id, token)
    ensures Stores(su, st, call, id, token) ==> SecretOf(Next(su, st, call), id) == Some(token)
  {
    if Failure(su, st, call).Some? {
      AFailedCallSays(su, st, call, id);
    } else if !ForSecretOf(call, id) {
      OnlyItsOwnSecret(su, st, call, id);
    } else if call.AddTokenCall? {
      AnAddedTokenIsStored(su, st, call);
    } else if call.SetTokenCall? {
      ASetTokenIsStored(su, st, call);
    } else {
      AForgottenTokenIsGone(su, st, call);
    }
  }

  ghost predicate StoredBySome(su: Setup, st: State, calls: seq<Call>, id: string, token: string)
    decreases calls
  {
    && calls != []
    && (Stores(su, st, calls[0], id, token) || StoredBySome(su, Next(su, st, calls[0]), calls[1..], id, token))
  }

  /** Over every run: a token is in the store only if it was there, or some call
      for that very account put it there. */
  lemma {:induction false} SecretsComeFromCalls(su: Setup, st: State, calls: seq<Call>, id: string, token: string)
    requires SecretOf(Run(su, st, calls), id) == Some(token)
    ensures SecretOf(st, id) == Some(token) || StoredBySome(su, st, calls, id, token)
    decreases calls
  {
    if calls != [] {
      SecretsComeFromCalls(su, Next(su, st, calls[0]), calls[1..], id, token);
      StepSecrets(su, st, calls[0], id, token);
    }
  }

  /** And it stays there until another call for that account. */
  lemma AStoredTokenStays(su: Setup, st: State, call: Call, calls: seq<Call>, id: string, token: string)
    requires Stores(su, st, call, id, token)
    requires forall i :: 0 <= i < |calls| ==> !ForSecretOf(calls[i], id)
    ensures SecretOf(Run(su, st, [call] + calls), id) == Some(token)
  {
    StepSecrets(su, st, call, id, token);
    assert ([call] + calls)[1..] == calls;
    UntouchedStays(su, Next(su, st, call), calls, id);
  }

  lemma {:induction false} UntouchedStays(su: Setup, st: State, calls: seq<Call>, id: string)
    requires forall i :: 0 <= i < |calls| ==> !ForSecretOf(calls[i], id)
    ensures SecretOf(Run(su, st, calls), id) == SecretOf(st, id)
    decreases calls
  {
    if calls != [] {
      OnlyItsOwnSecret(su, st, calls[0], id);
      assert forall i :: 0 <= i < |calls| - 1 ==> calls[1..][i] == calls[i + 1];
      UntouchedStays(su, Next(su, st, calls[0]), calls[1..], id);
    }
  }

  // -------------------------------------------------------------------- what is known

  /** The store has a token for the account. */
  predicate IsStored(st: State, id: string) {
    id in st.secrets && st.secrets[id] != ""
  }

  predicate RightOf(st: State, id: string) {
    id in st.known ==> (st.known[id] <==> IsStored(st, id))
  }

  /** Whatever is remembered of the store is right. */
  ghost predicate KnownIsRight(st: State) {
    forall id :: RightOf(st, id)
  }

  /** The save of a first token fails, and it is deleted again. */
  predicate Misremembers(su: Setup, st: State, call: Call) {
    call.SetTokenCall? && Failure(su, st, call) == Some(SaveFailed) && call.undone && !IsStored(st, call.id)
  }

  lemma KnownOfItsOwn(su: Setup, st: State, call: Call)
    requires call.AddTokenCall? || call.SetTokenCall? || call.ForgetSecretCall?
    requires call.AddTokenCall? ==> call.id !in st.known && SecretOf(st, call.id) == None
    requires RightOf(st, call.id)
    ensures RightOf(Next(su, st, call), call.id) <==> !Misremembers(su, st, call)
  {
    PlansDoNotSave(su, st.data, call);
  }

  /** What is remembered of the store stays right exactly when no first token is
      deleted again after a failed save. */
  lemma KnownStaysRightExactly(su: Setup, st: State, call: Call)
    requires KnownIsRight(st)
    requires call.AddTokenCall? ==> call.id !in st.known && SecretOf(st, call.id) == None
    ensures KnownIsRight(Next(su, st, call)) <==> !Misremembers(su, st, call)
  {
    forall other | !ForSecretOf(call, other)
      ensures RightOf(Next(su, st, call), other)
    {
      assert RightOf(st, other);
      OnlyItsOwnSecret(su, st, call, other);
    }
    if call.AddTokenCall? || call.SetTokenCall? || call.ForgetSecretCall? {
      KnownOfItsOwn(su, st, call);
    }
  }

  // ----------------------------------------------------------------- every hash its token

  /** Every token account with a hash has the token of that hash in the store. */
  ghost predicate TokensStored(m: Machine, accounts: seq<Account>, secrets: map<string, string>) {
    forall i :: 0 <= i < |accounts| && accounts[i].kind == Token && accounts[i].tokenSha.Some? ==>
      accounts[i].id in secrets && secrets[accounts[i].id] != ""
      && m.sha(secrets[accounts[i].id]) == accounts[i].tokenSha.value
  }

  lemma AddedIsStored(m: Machine, accounts: seq<Account>, secrets: map<string, string>, a: Account,
                      token: Option<string>)
    requires TokensStored(m, accounts, secrets) && !Has(accounts, a.id)
    requires a.kind == Token && a.tokenSha.Some? ==> token.Some? && token.value != ""
                                                     && m.sha(token.value) == a.tokenSha.value
    ensures TokensStored(m, accounts + [a], if token.Some? then secrets[a.id := token.value] else secrets)
  {
    var all := accounts + [a];
    assert forall i :: 0 <= i < |accounts| ==> all[i] == accounts[i] && all[i].id != a.id;
  }

  lemma ReplacedIsStored(m: Machine, accounts: seq<Account>, secrets: map<string, string>, p: nat, b: Account,
                         token: Option<string>)
    requires TokensStored(m, accounts, secrets) && DistinctIds(accounts) && p < |accounts| && b.id == accounts[p].id
    requires if token.Some? then b.tokenSha == Some(m.sha(token.value)) && token.value != ""
             else b.kind == accounts[p].kind && b.tokenSha == accounts[p].tokenSha
    ensures TokensStored(m, accounts[p := b], if token.Some? then secrets[b.id := token.value] else secrets)
  {
  }

  lemma RemovedIsStored(m: Machine, accounts: seq<Account>, secrets: map<string, string>, id: string)
    requires TokensStored(m, accounts, secrets)
    ensures TokensStored(m, Kept(accounts, OtherThan(id)), secrets)
  {
    var left := Kept(accounts, OtherThan(id));
    SplitElements(accounts, OtherThan(id));
    assert forall i :: 0 <= i < |left| ==> left[i] in accounts;
  }

  lemma ForgottenIsStored(m: Machine, accounts: seq<Account>, secrets: map<string, string>, id: string)
    requires TokensStored(m, accounts, secrets) && !Has(accounts, id)
    ensures TokensStored(m, accounts, secrets - {id})
  {
  }

  lemma AddedTokenIsStored(su: Setup, st: State, call: Call)
    requires call.AddTokenCall? && |st.data.accounts| > 0 && Possible(st, call) && Plan(su, st.data, call).Ok?
    requires TokensStored(su.m, st.data.accounts, st.secrets)
    ensures TokensStored(su.m, Plan(su, st.data, call).value.accounts, WithSecrets(st, call).secrets)
  {
    var was, now := st.data.accounts, Plan(su, st.data, call).value.accounts;
    AddTokenSays(su.m, st.data, call.name, call.token, call.color, call.id, call.now);
    AddedIsStored(su.m, was, st.secrets, now[|was|], call.token);
  }

  lemma PlanIsStored(su: Setup, st: State, call: Call)
    requires |st.data.accounts| > 0 && DistinctIds(st.data.accounts) && Possible(st, call)
    requires Plan(su, st.data, call).Ok? && TokensStored(su.m, st.data.accounts, st.secrets)
    ensures TokensStored(su.m, Plan(su, st.data, call).value.accounts, WithSecrets(st, call).secrets)
  {
    var was, now := st.data.accounts, Plan(su, st.data, call).value.accounts;
    match call
    case AddDirectoryCall(_, _, _, _, _, _, _) => AddedIsStored(su.m, was, st.secrets, now[|was|], None);
    case AddTokenCall(_, _, _, _, _, _, _, _) => AddedTokenIsStored(su, st, call);
    case SetTokenCall(id, secret, _, _, _, _) =>
      ReplacedIsStored(su.m, was, st.secrets, Position(was, id), now[Position(was, id)], Some(secret));
    case UpdateCall(id, _, _, _) =>
      ReplacedIsStored(su.m, was, st.secrets, Position(was, id), now[Position(was, id)], None);
    case RemoveCall(id, _) => RemovedIsStored(su.m, was, st.secrets, id);
    case ForgetSecretCall(id, _) => ForgottenIsStored(su.m, was, st.secrets, id);
    case SetDefaultsCall(_, _, _, _) =>
    case SetCopyConsentCall(_, _, _, _) =>
  }

  lemma CallKeepsStored(su: Setup, st: State, call: Call)
    requires |st.data.accounts| > 0 && DistinctIds(st.data.accounts) && Possible(st, call) && RollbackWorks(call)
    requires TokensStored(su.m, st.data.accounts, st.secrets)
    ensures TokensStored(su.m, Next(su, st, call).data.accounts, Next(su, st, call).secrets)
  {
    AllOrNothing(su, st, call);
    if Failure(su, st, call).None? {
      PlanIsStored(su, st, call);
    }
  }

  /** Over every run with rollbacks that work: a token account with a hash has the
      token of that hash in the store. */
  lemma {:induction false} TokensStayStored(su: Setup, st: State, calls: seq<Call>)
    requires Sane(su.m) && WellFormed(su.m, su.base, st.data) && AllPossible(su, st, calls) && RollbacksWork(calls)
    requires TokensStored(su.m, st.data.accounts, st.secrets)
    ensures TokensStored(su.m, Run(su, st, calls).data.accounts, Run(su, st, calls).secrets)
    decreases calls
  {
    if calls != [] {
      CallKeepsRules(su, st, calls[0]);
      NamesApart(su.m, st.data.accounts);
      CallKeepsStored(su, st, calls[0]);
      assert forall i :: 0 <= i < |calls| - 1 ==> calls[1..][i] == calls[i + 1];
      TokensStayStored(su, Next(su, st, calls[0]), calls[1..]);
    }
  }

  // ------------------------------------------------------------------ the environment

  /** What a child of an account gets: whatever the app found, the account's config
      directory, or its token. */
  datatype Env = Inherit | InDirectory(dir: string) | WithToken(token: string)

  /** `got`: the secret store can be read. */
  function Environment(st: State, id: string, got: bool): Result<Env, Error> {
    var found := Find(st.data.accounts, id);
    if found.None? then Err(NotFound(id))
    else if id == DEFAULT_ID then Ok(Inherit)
    else if found.value.kind == Directory then
      if found.value.dir.Some? then Ok(InDirectory(found.value.dir.value)) else Err(Invalid)
    else if !got then Err(SecretFailed)
    else if id in st.secrets && st.secrets[id] != "" then Ok(WithToken(st.secrets[id]))
    else Err(TokenMissing)
  }

  /** Never a silent fallback to the Default's sign-in, and never another account's
      directory or token. */
  lemma EachItsOwnEnvironment(m: Machine, st: State, p: nat, got: bool)
    requires GoodAccounts(m, st.data.accounts) && p < |st.data.accounts|
    ensures var a := st.data.accounts[p];
      var env := Environment(st, a.id, got);
      && (env == Ok(Inherit) <==> p == 0)
      && (env.Ok? && env.value.InDirectory? ==> a.dir == Some(env.value.dir))
      && (env.Ok? && env.value.WithToken? ==> a.kind == Token && SecretOf(st, a.id) == Some(env.value.token))
      && (p > 0 && a.kind == Directory ==> env.Ok?)
  {
    NamesApart(m, st.data.accounts);
    FoundIsTheOne(m, st.data.accounts, p);
    if p > 0 {
      assert GoodOther(m, st.data.accounts[p]);
    }
  }

  /** Over every run with rollbacks that work: a child of a token account with a
      hash runs with the token of that hash. */
  lemma EveryTokenAccountRuns(su: Setup, st: State, calls: seq<Call>, p: nat)
    requires Sane(su.m) && WellFormed(su.m, su.base, st.data) && Saved(su, st) && AllPossible(su, st, calls)
    requires RollbacksWork(calls) && TokensStored(su.m, st.data.accounts, st.secrets)
    requires var accounts := Run(su, st, calls).data.accounts;
      0 < p < |accounts| && accounts[p].kind == Token && accounts[p].tokenSha.Some?
    ensures var end := Run(su, st, calls);
      var env := Environment(end, end.data.accounts[p].id, true);
      env.Ok? && env.value.WithToken? && Some(su.m.sha(env.value.token)) == end.data.accounts[p].tokenSha
  {
    var end := Run(su, st, calls);
    TokensStayStored(su, st, calls);
    ChangesKeep(su, st, calls);
    NamesApart(su.m, end.data.accounts);
    FoundIsTheOne(su.m, end.data.accounts, p);
    assert GoodOther(su.m, end.data.accounts[p]);
  }
}
