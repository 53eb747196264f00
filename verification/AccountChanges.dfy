/**
 The changes a user makes to the registry, before they are saved
 (src-tauri/src/claude/accounts.rs): what each is refused for, and that what
 they make is well formed.
 */
module AccountChanges {
  import opened Wrappers
  import opened Text
  import opened Accounts
  import opened AccountFiles
  import opened AccountEntries
  import opened AccountLoading
  import opened Shuffles

  datatype Error =
    | NotFound(id: string)
    | Invalid
    | NameTakenBy(name: string)
    | DefaultFixed
    | DirUnavailable
    | NotToken
    | TokenMissing
    | SecretFailed
    | SaveFailed

  /** The first palette colour no account has. */
  function FirstUnused(accounts: seq<Account>, palette: seq<string>): (r: Option<string>)
    ensures r.Some? ==> r.value in palette && forall i :: 0 <= i < |accounts| ==> accounts[i].color != r
  {
    if palette == [] then None
    else if exists i :: 0 <= i < |accounts| && accounts[i].color == Some(palette[0]) then
      FirstUnused(accounts, palette[1..])
    else Some(palette[0])
  }

  function PickColor(accounts: seq<Account>, asked: Option<string>): (r: Result<string, Error>) {
    if asked.Some? then if IsColor(asked.value) then Ok(LowerColor(asked.value)) else Err(Invalid)
    else
      var unused := FirstUnused(accounts, PALETTE);
      Ok(if unused.Some? then unused.value else PALETTE[(|accounts| - 1) % |PALETTE|])
  }

  predicate TokenShape(token: string) {
    20 <= |token| <= 512 && forall i :: 0 <= i < |token| ==> '!' <= token[i] <= '~'
  }

  predicate HasToken(a: Account, sha: string) {
    a.kind == Token && a.tokenSha == Some(sha)
  }

  /** Another account than `except` has a token of that hash. */
  predicate TokenTaken(accounts: seq<Account>, sha: string, except: Option<string>) {
    exists i :: 0 <= i < |accounts| && HasToken(accounts[i], sha) && Some(accounts[i].id) != except
  }

  /** The first account with a token of that hash, as the code looks it up. */
  function ByTokenSha(accounts: seq<Account>, sha: string): (r: Option<Account>)
    ensures r.Some? <==> TokenTaken(accounts, sha, None)
    ensures r.Some? ==> HasToken(r.value, sha) && r.value in accounts
  {
    if accounts == [] then None
    else if HasToken(accounts[0], sha) then Some(accounts[0])
    else
      assert forall i :: 1 <= i < |accounts| ==> accounts[i] == accounts[1..][i - 1];
      ByTokenSha(accounts[1..], sha)
  }

  function Added(reg: Registry, a: Account): Registry {
    reg.(accounts := reg.accounts + [a])
  }

  function NewAccount(id: string, name: string, kind: Kind, color: string, now: int): Account {
    Account(id, name, kind, None, Some(color), now, None, None, None, None, map[])
  }

  /** A directory account; `created`: its directory exists or could be made. */
  function AddDirectory(m: Machine, base: string, reg: Registry, name: string, dir: string, color: Option<string>,
                        id: string, now: int, created: bool): Result<Registry, Error> {
    var cleaned, normal, picked := CleanName(name), m.normalize(dir), PickColor(reg.accounts, color);
    if cleaned.None? || normal.None? then Err(Invalid)
    else if NameTaken(m, reg.accounts, cleaned.value, None) then Err(NameTakenBy(cleaned.value))
    else if !DirFree(m, base, reg.accounts, normal.value) then Err(DirUnavailable)
    else if picked.Err? then Err(picked.error)
    else if !created then Err(DirUnavailable)
    else Ok(Added(reg, NewAccount(id, cleaned.value, Directory, picked.value, now).(dir := normal)))
  }

  function AddToken(m: Machine, reg: Registry, name: string, token: Option<string>, color: Option<string>,
                    id: string, now: int): Result<Registry, Error> {
    var cleaned, picked := CleanName(name), PickColor(reg.accounts, color);
    if cleaned.None? || (token.Some? && !TokenShape(token.value)) then Err(Invalid)
    else if NameTaken(m, reg.accounts, cleaned.value, None) then Err(NameTakenBy(cleaned.value))
    else if token.Some? && ByTokenSha(reg.accounts, m.sha(token.value)).Some? then Err(Invalid)
    else if picked.Err? then Err(picked.error)
    else
      var sha := if token.Some? then Some(m.sha(token.value)) else None;
      Ok(Added(reg, NewAccount(id, cleaned.value, Token, picked.value, now).(tokenSha := sha)))
  }

  /** Where the account with that id stands, or |accounts|. */
  function Position(accounts: seq<Account>, id: string): (i: nat)
    ensures i <= |accounts| && (i < |accounts| <==> Has(accounts, id))
    ensures i < |accounts| ==> accounts[i].id == id
  {
    if accounts == [] then 0
    else if accounts[0].id == id then 0
    else
      assert forall i :: 1 <= i < |accounts| ==> accounts[i] == accounts[1..][i - 1];
      1 + Position(accounts[1..], id)
  }

  function SetToken(m: Machine, reg: Registry, id: string, token: string): Result<Registry, Error> {
    var p := Position(reg.accounts, id);
    if !TokenShape(token) then Err(Invalid)
    else if p == |reg.accounts| then Err(NotFound(id))
    else if reg.accounts[p].kind != Token then Err(NotToken)
    else
      var other := ByTokenSha(reg.accounts, m.sha(token));
      if other.Some? && other.value.id != id then Err(Invalid)
      else
        Ok(reg.(accounts := reg.accounts[p := reg.accounts[p].(tokenSha := Some(m.sha(token)), accountUuid := None)]))
  }

  function Update(m: Machine, reg: Registry, id: string, name: Option<string>, color: Option<string>)
    : Result<Registry, Error>
  {
    var cleaned := if name.Some? then CleanName(name.value) else None;
    var p := Position(reg.accounts, id);
    if name.Some? && cleaned.None? then Err(Invalid)
    else if cleaned.Some? && NameTaken(m, reg.accounts, cleaned.value, Some(id)) then Err(NameTakenBy(cleaned.value))
    else if color.Some? && !IsColor(color.value) then Err(Invalid)
    else if p == |reg.accounts| then Err(NotFound(id))
    else
      var a := reg.accounts[p];
      var b := a.(name := OrElse(cleaned, a.name),
                  color := if color.Some? then Some(LowerColor(color.value)) else a.color);
      Ok(reg.(accounts := reg.accounts[p := b]))
  }

  function OtherThan(id: string): Account -> bool {
    (a: Account) => a.id != id
  }

  function NotNaming(id: string): Consent -> bool {
    (c: Consent) => c.giver != id && c.taker != id
  }

  function Remove(reg: Registry, id: string): Result<Registry, Error> {
    if id == DEFAULT_ID then Err(DefaultFixed)
    else if !Has(reg.accounts, id) then Err(NotFound(id))
    else
      var d := reg.defaults;
      Ok(reg.(accounts := Kept(reg.accounts, OtherThan(id)),
              defaults := Defaults(if d.newSession == id then DEFAULT_ID else d.newSession,
                                   if d.bridge == id then DEFAULT_ID else d.bridge,
                                   map dir | dir in d.byProject && d.byProject[dir] != id :: d.byProject[dir]),
              consents := Kept(reg.consents, NotNaming(id))))
  }

  function TrimSlashes(path: string): (r: string)
    ensures r == "" || (r <= path && r[|r| - 1] != '/')
  {
    if path != "" && path[|path| - 1] == '/' then TrimSlashes(path[..|path| - 1]) else path
  }

  /** The key a project directory is kept under. */
  function ProjectKey(path: string): string {
    var key := TrimSlashes(path);
    if key == "" then "/" else key
  }

  /** The project entries in order, checked; a later one of the same key wins. */
  function CleanProjects(accounts: seq<Account>, projects: seq<(string, string)>): Result<map<string, string>, Error> {
    if projects == [] then Ok(map[])
    else
      var before, last := CleanProjects(accounts, projects[..|projects| - 1]), projects[|projects| - 1];
      if before.Err? then before else CleanProject(accounts, before.value, last)
  }

  function CleanProject(accounts: seq<Account>, clean: map<string, string>, project: (string, string))
    : Result<map<string, string>, Error>
  {
    if !Has(accounts, project.1) then Err(NotFound(project.1))
    else
      var path := Trim(project.0);
      if !Absolute(path) || ".." in Parts(path) then Err(Invalid)
      else Ok(clean[ProjectKey(path) := project.1])
  }

  function SetDefaults(reg: Registry, newSession: string, bridge: string, projects: seq<(string, string)>)
    : Result<Registry, Error>
  {
    var clean := CleanProjects(reg.accounts, projects);
    if !Has(reg.accounts, newSession) then Err(NotFound(newSession))
    else if !Has(reg.accounts, bridge) then Err(NotFound(bridge))
    else if clean.Err? then Err(clean.error)
    else
      Ok(reg.(defaults := Defaults(newSession, bridge, clean.value),
              held := reg.held.(newSession := None, bridge := None)))
  }

  function Unlike(c: Consent): Consent -> bool {
    x => x != c
  }

  function SetCopyConsent(reg: Registry, giver: string, taker: string, granted: bool): Result<Registry, Error> {
    if !Has(reg.accounts, giver) then Err(NotFound(giver))
    else if !Has(reg.accounts, taker) then Err(NotFound(taker))
    else
      var c := Consent(giver, taker);
      var without := Kept(reg.consents, Unlike(c));
      Ok(reg.(consents := if granted then without + [c] else without))
  }

  // ------------------------------------------------------------------- the rules kept

  /** No token belongs to two accounts. */
  ghost predicate DistinctTokens(accounts: seq<Account>) {
    forall i, j :: 0 <= i < j < |accounts| ==> !SameToken(accounts[i], accounts[j])
  }

  predicate SameToken(a: Account, b: Account) {
    a.kind == Token && b.kind == Token && a.tokenSha.Some? && a.tokenSha == b.tokenSha
  }

  /** What this run could not use stays with the registry. */
  predicate SameHeld(a: Registry, b: Registry) {
    a.held.(newSession := None, bridge := None) == b.held.(newSession := None, bridge := None)
  }

  ghost predicate Rules(m: Machine, base: string, reg: Registry) {
    WellFormed(m, base, reg) && DistinctTokens(reg.accounts)
  }

  /** A change leaves the registry well formed, and tokens distinct if they were. */
  ghost predicate KeepsRules(m: Machine, base: string, was: Registry, now: Registry) {
    WellFormed(m, base, now) && (DistinctTokens(was.accounts) ==> DistinctTokens(now.accounts))
  }

  ghost predicate Sane(m: Machine) {
    Stable(m) && forall t :: IsSha(m.sha(t))
  }

  lemma PickedIsColor(accounts: seq<Account>, asked: Option<string>)
    requires |accounts| > 0
    ensures PickColor(accounts, asked).Ok? ==> IsColor(PickColor(accounts, asked).value)
  {
    assert forall i :: 0 <= i < |PALETTE| ==> IsColor(PALETTE[i]);
    if asked.Some? && IsColor(asked.value) {
      LowerKeepsColor(asked.value);
    }
  }

  /** Ids that stay known keep everything that names them. */
  lemma NamedStayKnown(was: seq<Account>, now: seq<Account>, d: Defaults, consents: seq<Consent>)
    requires GoodDefaults(was, d) && GoodConsents(was, consents)
    requires forall i :: 0 <= i < |was| ==> Has(now, was[i].id)
    ensures GoodDefaults(now, d) && GoodConsents(now, consents)
  {
    assert forall id :: Has(was, id) ==> Has(now, id);
  }

  lemma AddedTokens(accounts: seq<Account>, a: Account)
    requires DistinctTokens(accounts) && (a.tokenSha.Some? ==> !TokenTaken(accounts, a.tokenSha.value, None))
    ensures DistinctTokens(accounts + [a])
  {
    assert forall i :: 0 <= i < |accounts| ==> !SameToken(accounts[i], a) || HasToken(accounts[i], a.tokenSha.value);
  }

  lemma AddedKeepsRules(m: Machine, base: string, reg: Registry, a: Account)
    requires WellFormed(m, base, reg) && JoinsWell(m, reg.accounts, a) && Fits(m, base, a)
    requires a.tokenSha.Some? ==> !TokenTaken(reg.accounts, a.tokenSha.value, None)
    ensures KeepsRules(m, base, reg, Added(reg, a))
  {
    JoinedIsGood(m, reg.accounts, a);
    if DistinctTokens(reg.accounts) {
      AddedTokens(reg.accounts, a);
    }
    var all := reg.accounts + [a];
    assert forall i :: 0 <= i < |reg.accounts| ==> all[i].id == reg.accounts[i].id;
    NamedStayKnown(reg.accounts, all, reg.defaults, reg.consents);
  }

  lemma AddDirectoryAdds(m: Machine, base: string, reg: Registry, name: string, dir: string, color: Option<string>,
                         id: string, now: int, created: bool, a: Account)
    requires Sane(m) && WellFormed(m, base, reg) && IsAccountId(id) && !Has(reg.accounts, id)
    requires AddDirectory(m, base, reg, name, dir, color, id, now, created).Ok?
    requires a == NewAccount(id, CleanName(name).value, Directory, PickColor(reg.accounts, color).value, now)
                  .(dir := m.normalize(dir))
    ensures AddDirectory(m, base, reg, name, dir, color, id, now, created) == Ok(Added(reg, a))
    ensures JoinsWell(m, reg.accounts, a) && Fits(m, base, a)
  {
    PickedIsColor(reg.accounts, color);
    CleanNameStays(name);
  }

  lemma AddDirectoryKeeps(m: Machine, base: string, reg: Registry, name: string, dir: string, color: Option<string>,
                          id: string, now: int, created: bool)
    requires Sane(m) && WellFormed(m, base, reg) && IsAccountId(id) && !Has(reg.accounts, id)
    requires AddDirectory(m, base, reg, name, dir, color, id, now, created).Ok?
    ensures KeepsRules(m, base, reg, AddDirectory(m, base, reg, name, dir, color, id, now, created).value)
  {
    var a := NewAccount(id, CleanName(name).value, Directory, PickColor(reg.accounts, color).value, now)
             .(dir := m.normalize(dir));
    AddDirectoryAdds(m, base, reg, name, dir, color, id, now, created, a);
    AddedKeepsRules(m, base, reg, a);
  }

  lemma AddTokenAdds(m: Machine, base: string, reg: Registry, name: string, token: Option<string>,
                     color: Option<string>, id: string, now: int, a: Account)
    requires Sane(m) && WellFormed(m, base, reg) && IsAccountId(id) && !Has(reg.accounts, id)
    requires AddToken(m, reg, name, token, color, id, now).Ok?
    requires a == NewAccount(id, CleanName(name).value, Token, PickColor(reg.accounts, color).value, now)
                  .(tokenSha := if token.Some? then Some(m.sha(token.value)) else None)
    ensures AddToken(m, reg, name, token, color, id, now) == Ok(Added(reg, a))
    ensures JoinsWell(m, reg.accounts, a)
    ensures a.tokenSha.Some? ==> !TokenTaken(reg.accounts, a.tokenSha.value, None)
  {
    PickedIsColor(reg.accounts, color);
    CleanNameStays(name);
  }

  lemma AddTokenKeeps(m: Machine, base: string, reg: Registry, name: string, token: Option<string>,
                      color: Option<string>, id: string, now: int)
    requires Sane(m) && WellFormed(m, base, reg) && IsAccountId(id) && !Has(reg.accounts, id)
    requires AddToken(m, reg, name, token, color, id, now).Ok?
    ensures KeepsRules(m, base, reg, AddToken(m, reg, name, token, color, id, now).value)
  {
    var sha := if token.Some? then Some(m.sha(token.value)) else None;
    var a := NewAccount(id, CleanName(name).value, Token, PickColor(reg.accounts, color).value, now).(tokenSha := sha);
    AddTokenAdds(m, base, reg, name, token, color, id, now, a);
    AddedKeepsRules(m, base, reg, a);
  }

  lemma ReplacedIsGood(m: Machine, accounts: seq<Account>, p: nat, b: Account)
    requires GoodAccounts(m, accounts) && p < |accounts|
    requires b.id == accounts[p].id && b.dir == accounts[p].dir
    requires if p == 0 then GoodDefault(b) else GoodOther(m, b)
    requires forall i :: 0 <= i < |accounts| && i != p ==> m.fold(accounts[i].name) != m.fold(b.name)
    ensures GoodAccounts(m, accounts[p := b])
  {
    var now := accounts[p := b];
    forall i, j | 0 <= i < j < |now|
      ensures Apart(m, now[i], now[j])
    {
      assert Apart(m, accounts[i], accounts[j]);
    }
  }

  lemma ReplacedKeepsRules(m: Machine, base: string, reg: Registry, p: nat, b: Account)
    requires WellFormed(m, base, reg) && p < |reg.accounts|
    requires b.id == reg.accounts[p].id && b.dir == reg.accounts[p].dir
    requires GoodAccounts(m, reg.accounts[p := b])
    ensures WellFormed(m, base, reg.(accounts := reg.accounts[p := b]))
  {
    var now := reg.accounts[p := b];
    assert forall i :: 0 <= i < |now| ==> now[i].id == reg.accounts[i].id;
    NamedStayKnown(reg.accounts, now, reg.defaults, reg.consents);
    assert Fits(m, base, reg.accounts[p]);
  }

  lemma NamesFree(m: Machine, accounts: seq<Account>, p: nat, name: string)
    requires GoodAccounts(m, accounts) && p < |accounts|
    requires !NameTaken(m, accounts, name, Some(accounts[p].id))
    ensures forall i :: 0 <= i < |accounts| && i != p ==> m.fold(accounts[i].name) != m.fold(name)
  {
    NamesApart(m, accounts);
  }

  lemma NamesDiffer(m: Machine, accounts: seq<Account>, p: nat)
    requires GoodAccounts(m, accounts) && p < |accounts|
    ensures forall i :: 0 <= i < |accounts| && i != p ==> m.fold(accounts[i].name) != m.fold(accounts[p].name)
  {
    forall i | 0 <= i < |accounts| && i != p
      ensures m.fold(accounts[i].name) != m.fold(accounts[p].name)
    {
      assert Apart(m, accounts[if i < p then i else p], accounts[if i < p then p else i]);
    }
  }

  lemma UpdateKeeps(m: Machine, base: string, reg: Registry, id: string, name: Option<string>, color: Option<string>)
    requires WellFormed(m, base, reg) && Update(m, reg, id, name, color).Ok?
    ensures KeepsRules(m, base, reg, Update(m, reg, id, name, color).value)
  {
    var p := Position(reg.accounts, id);
    var b := Update(m, reg, id, name, color).value.accounts[p];
    if name.Some? {
      CleanNameStays(name.value);
      NamesFree(m, reg.accounts, p, b.name);
    } else {
      NamesDiffer(m, reg.accounts, p);
    }
    if color.Some? {
      LowerKeepsColor(color.value);
    }
    ReplacedIsGood(m, reg.accounts, p, b);
    ReplacedKeepsRules(m, base, reg, p, b);
    SameTokensStay(reg.accounts, p, b);
  }

  lemma SameTokensStay(accounts: seq<Account>, p: nat, b: Account)
    requires p < |accounts| && b.kind == accounts[p].kind && b.tokenSha == accounts[p].tokenSha
    ensures DistinctTokens(accounts) ==> DistinctTokens(accounts[p := b])
  {
    var now := accounts[p := b];
    assert forall i, j :: 0 <= i < j < |now| ==>
      (SameToken(now[i], now[j]) <==> SameToken(accounts[i], accounts[j]));
  }

  lemma SetTokenKeeps(m: Machine, base: string, reg: Registry, id: string, token: string)
    requires Sane(m) && WellFormed(m, base, reg) && SetToken(m, reg, id, token).Ok?
    ensures KeepsRules(m, base, reg, SetToken(m, reg, id, token).value)
  {
    var p := Position(reg.accounts, id);
    var b := SetToken(m, reg, id, token).value.accounts[p];
    NamesDiffer(m, reg.accounts, p);
    ReplacedIsGood(m, reg.accounts, p, b);
    ReplacedKeepsRules(m, base, reg, p, b);
    if DistinctTokens(reg.accounts) {
      NamesApart(m, reg.accounts);
      HashIsFree(reg.accounts, p, m.sha(token));
      NewTokenIsAlone(reg.accounts, p, b, m.sha(token));
    }
  }

  lemma NewTokenIsAlone(accounts: seq<Account>, p: nat, b: Account, sha: string)
    requires p < |accounts| && DistinctTokens(accounts) && b.tokenSha == Some(sha)
    requires forall i :: 0 <= i < |accounts| && i != p ==> !HasToken(accounts[i], sha)
    ensures DistinctTokens(accounts[p := b])
  {
  }

  /** With distinct tokens, the first account with a hash is the only one. */
  lemma HashIsFree(accounts: seq<Account>, p: nat, sha: string)
    requires DistinctTokens(accounts) && p < |accounts|
    requires ByTokenSha(accounts, sha).Some? ==> ByTokenSha(accounts, sha).value.id == accounts[p].id
    requires forall i, j :: 0 <= i < j < |accounts| ==> accounts[i].id != accounts[j].id
    ensures forall i :: 0 <= i < |accounts| && i != p ==> !HasToken(accounts[i], sha)
  {
    var other := ByTokenSha(accounts, sha);
    if other.Some? {
      assert accounts[p] == other.value;
    }
  }

  lemma RemovedAccounts(m: Machine, base: string, accounts: seq<Account>, id: string)
    requires GoodAccounts(m, accounts) && AllFit(m, base, accounts) && id != DEFAULT_ID
    ensures var left := Kept(accounts, OtherThan(id));
      && GoodAccounts(m, left) && AllFit(m, base, left)
      && forall other :: Has(left, other) <==> Has(accounts, other) && other != id
  {
    var left := Kept(accounts, OtherThan(id));
    KeptIsGood(m, accounts, OtherThan(id));
    SplitElements(accounts, OtherThan(id));
    forall other
      ensures Has(left, other) <==> Has(accounts, other) && other != id
    {
      HasIsIds(left, other);
      HasIsIds(accounts, other);
    }
    forall i | 0 <= i < |left|
      ensures Fits(m, base, left[i])
    {
      assert left[i] in accounts;
    }
  }

  lemma RemovedConsents(was: seq<Account>, left: seq<Account>, consents: seq<Consent>, id: string)
    requires GoodConsents(was, consents)
    requires forall other :: Has(left, other) <==> Has(was, other) && other != id
    ensures GoodConsents(left, Kept(consents, NotNaming(id)))
  {
    var now := Kept(consents, NotNaming(id));
    SplitElements(consents, NotNaming(id));
    KeptIsDistinct(consents, NotNaming(id));
    forall i | 0 <= i < |now|
      ensures Has(left, now[i].giver) && Has(left, now[i].taker)
    {
      assert now[i] in consents && NotNaming(id)(now[i]);
    }
  }

  lemma RemoveKeeps(m: Machine, base: string, reg: Registry, id: string)
    requires WellFormed(m, base, reg) && Remove(reg, id).Ok?
    ensures KeepsRules(m, base, reg, Remove(reg, id).value)
    ensures forall other :: Has(Remove(reg, id).value.accounts, other) <==> Has(reg.accounts, other) && other != id
  {
    RemovedAccounts(m, base, reg.accounts, id);
    RemovedConsents(reg.accounts, Kept(reg.accounts, OtherThan(id)), reg.consents, id);
    assert Has(reg.accounts, DEFAULT_ID);
    if DistinctTokens(reg.accounts) {
      KeptTokens(reg.accounts, OtherThan(id));
    }
  }

  lemma {:induction false} KeptTokens(accounts: seq<Account>, p: Account -> bool)
    requires DistinctTokens(accounts)
    ensures DistinctTokens(Kept(accounts, p))
    decreases |accounts|
  {
    if accounts != [] {
      var n := |accounts| - 1;
      KeptTokens(accounts[..n], p);
      SplitElements(accounts[..n], p);
      var kept := Kept(accounts[..n], p);
      assert forall i :: 0 <= i < |kept| ==> kept[i] in accounts[..n];
    }
  }

  lemma {:induction false} ProjectsAreGood(accounts: seq<Account>, projects: seq<(string, string)>)
    requires CleanProjects(accounts, projects).Ok?
    ensures var clean := CleanProjects(accounts, projects).value;
      forall dir :: dir in clean ==> Absolute(dir) && Has(accounts, clean[dir])
    decreases |projects|
  {
    if projects != [] {
      ProjectsAreGood(accounts, projects[..|projects| - 1]);
    }
  }

  lemma SetDefaultsKeeps(m: Machine, base: string, reg: Registry, newSession: string, bridge: string,
                         projects: seq<(string, string)>)
    requires WellFormed(m, base, reg) && SetDefaults(reg, newSession, bridge, projects).Ok?
    ensures KeepsRules(m, base, reg, SetDefaults(reg, newSession, bridge, projects).value)
  {
    ProjectsAreGood(reg.accounts, projects);
  }

  lemma ConsentSet(accounts: seq<Account>, consents: seq<Consent>, c: Consent, granted: bool)
    requires GoodConsents(accounts, consents) && Has(accounts, c.giver) && Has(accounts, c.taker)
    ensures var without := Kept(consents, Unlike(c));
      var now := if granted then without + [c] else without;
      GoodConsents(accounts, now) && forall x :: x in now <==> if x == c then granted else x in consents
  {
    var without := Kept(consents, Unlike(c));
    KeptIsDistinct(consents, Unlike(c));
    SplitElements(consents, Unlike(c));
    forall i | 0 <= i < |without|
      ensures without[i] in consents && without[i] != c
    {
      assert without[i] in without;
    }
  }

  lemma SetCopyConsentKeeps(m: Machine, base: string, reg: Registry, giver: string, taker: string, granted: bool)
    requires WellFormed(m, base, reg) && SetCopyConsent(reg, giver, taker, granted).Ok?
    ensures var next := SetCopyConsent(reg, giver, taker, granted).value;
      KeepsRules(m, base, reg, next)
      && forall x :: x in next.consents <==> if x == Consent(giver, taker) then granted else x in reg.consents
  {
    ConsentSet(reg.accounts, reg.consents, Consent(giver, taker), granted);
  }

  // ------------------------------------------------- refused exactly to keep the rules

  lemma RulesOfAdded(m: Machine, base: string, reg: Registry, a: Account)
    requires Rules(m, base, Added(reg, a)) && |reg.accounts| > 0
    ensures JoinsWell(m, reg.accounts, a) && Fits(m, base, a)
    ensures a.kind == Token && a.tokenSha.Some? ==> !TokenTaken(reg.accounts, a.tokenSha.value, None)
  {
    var all := reg.accounts + [a];
    PrefixIsGood(m, reg.accounts, a);
    assert all[|reg.accounts|] == a;
    assert forall i :: 0 <= i < |reg.accounts| ==> all[i] == reg.accounts[i] && !SameToken(all[i], all[|reg.accounts|]);
  }

  lemma JoinerIsFree(m: Machine, base: string, accounts: seq<Account>, a: Account)
    requires JoinsWell(m, accounts, a) && Fits(m, base, a)
    ensures !NameTaken(m, accounts, a.name, None)
    ensures a.kind == Directory ==> DirFree(m, base, accounts, a.dir.value)
  {
  }

  /** Valid input for a directory account is refused exactly when the account
      would break a rule. */
  lemma AddDirectoryExactly(m: Machine, base: string, reg: Registry, name: string, dir: string, color: Option<string>,
                            id: string, now: int)
    requires Sane(m) && Rules(m, base, reg) && IsAccountId(id) && !Has(reg.accounts, id)
    requires CleanName(name).Some? && m.normalize(dir).Some? && PickColor(reg.accounts, color).Ok?
    ensures AddDirectory(m, base, reg, name, dir, color, id, now, true).Ok? <==>
      Rules(m, base, Added(reg,
        NewAccount(id, CleanName(name).value, Directory, PickColor(reg.accounts, color).value, now)
        .(dir := m.normalize(dir))))
  {
    var a := NewAccount(id, CleanName(name).value, Directory, PickColor(reg.accounts, color).value, now)
             .(dir := m.normalize(dir));
    if AddDirectory(m, base, reg, name, dir, color, id, now, true).Ok? {
      AddDirectoryKeeps(m, base, reg, name, dir, color, id, now, true);
    }
    if Rules(m, base, Added(reg, a)) {
      RulesOfAdded(m, base, reg, a);
      JoinerIsFree(m, base, reg.accounts, a);
    }
  }

  lemma AddTokenExactly(m: Machine, base: string, reg: Registry, name: string, token: Option<string>,
                        color: Option<string>, id: string, now: int)
    requires Sane(m) && Rules(m, base, reg) && IsAccountId(id) && !Has(reg.accounts, id)
    requires CleanName(name).Some? && (token.Some? ==> TokenShape(token.value)) && PickColor(reg.accounts, color).Ok?
    ensures AddToken(m, reg, name, token, color, id, now).Ok? <==>
      Rules(m, base, Added(reg, NewAccount(id, CleanName(name).value, Token, PickColor(reg.accounts, color).value, now)
                                .(tokenSha := if token.Some? then Some(m.sha(token.value)) else None)))
  {
    var a := NewAccount(id, CleanName(name).value, Token, PickColor(reg.accounts, color).value, now)
             .(tokenSha := if token.Some? then Some(m.sha(token.value)) else None);
    if AddToken(m, reg, name, token, color, id, now).Ok? {
      AddTokenKeeps(m, base, reg, name, token, color, id, now);
    }
    if Rules(m, base, Added(reg, a)) {
      RulesOfAdded(m, base, reg, a);
      JoinerIsFree(m, base, reg.accounts, a);
    }
  }

  /** A new token is refused exactly when another account has it. */
  lemma SetTokenExactly(m: Machine, base: string, reg: Registry, p: nat, token: string)
    requires Sane(m) && Rules(m, base, reg) && p < |reg.accounts| && reg.accounts[p].kind == Token && TokenShape(token)
    ensures SetToken(m, reg, reg.accounts[p].id, token).Ok? <==>
      DistinctTokens(reg.accounts[p := reg.accounts[p].(tokenSha := Some(m.sha(token)))])
  {
    NamesApart(m, reg.accounts);
    assert Position(reg.accounts, reg.accounts[p].id) == p;
    if SetToken(m, reg, reg.accounts[p].id, token).Ok? {
      HashIsFree(reg.accounts, p, m.sha(token));
      NewTokenIsAlone(reg.accounts, p, reg.accounts[p].(tokenSha := Some(m.sha(token))), m.sha(token));
    } else {
      TakenHashBreaksTokens(reg.accounts, p, m.sha(token));
    }
  }

  lemma TakenHashBreaksTokens(accounts: seq<Account>, p: nat, sha: string)
    requires p < |accounts| && accounts[p].kind == Token
    requires ByTokenSha(accounts, sha).Some? && ByTokenSha(accounts, sha).value.id != accounts[p].id
    ensures !DistinctTokens(accounts[p := accounts[p].(tokenSha := Some(sha))])
  {
    var now := accounts[p := accounts[p].(tokenSha := Some(sha))];
    var other := ByTokenSha(accounts, sha).value;
    var i :| 0 <= i < |accounts| && accounts[i] == other;
    assert SameToken(now[if i < p then i else p], now[if i < p then p else i]);
  }

  /** A valid name is refused exactly when another account's folds to it. */
  lemma UpdateExactly(m: Machine, base: string, reg: Registry, p: nat, name: string)
    requires Rules(m, base, reg) && p < |reg.accounts| && CleanName(name).Some?
    ensures Update(m, reg, reg.accounts[p].id, Some(name), None).Ok? <==>
      Rules(m, base, reg.(accounts := reg.accounts[p := reg.accounts[p].(name := CleanName(name).value)]))
  {
    NamesApart(m, reg.accounts);
    assert Position(reg.accounts, reg.accounts[p].id) == p;
    var b := reg.accounts[p].(name := CleanName(name).value);
    if Update(m, reg, reg.accounts[p].id, Some(name), None).Ok? {
      UpdateKeeps(m, base, reg, reg.accounts[p].id, Some(name), None);
    } else {
      assert NameTaken(m, reg.accounts, b.name, Some(b.id));
      TakenBreaksRules(m, reg.accounts, p, b);
    }
  }

  lemma TakenBreaksRules(m: Machine, accounts: seq<Account>, p: nat, b: Account)
    requires p < |accounts| && accounts[p].id == b.id && NameTaken(m, accounts, b.name, Some(b.id))
    ensures !GoodAccounts(m, accounts[p := b])
  {
    var now := accounts[p := b];
    var i :| 0 <= i < |accounts| && Some(accounts[i].id) != Some(b.id) && m.fold(accounts[i].name) == m.fold(b.name);
    assert !Apart(m, now[if i < p then i else p], now[if i < p then p else i]);
  }
}
